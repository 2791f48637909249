/**
 * The interaction state of the image wall and its input handlers:
 * pointer-down (`_startDrag`), pointer-up (`_endDrag`, the click-versus-drag
 * classifier), wheel (`_scroll`), pointer-move (`_drag`) and the tile
 * pointer-down hook that remembers the slug under the pointer.
 */
module Sketch {
  import opened Options
  import opened JsNum
  import opened Grid

  /** An image the wall shows; `slug` is what a click reports. */
  datatype ImageRef = ImageRef(id: string, slug: string, imageUrl: string)

  /** A pointer position whose coordinates may each be null or undefined. */
  datatype Point = Point(x: Option<real>, y: Option<real>)

  const NoPoint: Point := Point(None, None)

  datatype Touch = Touch(clientX: real, clientY: real)

  /** The mouse and touch events the document listeners receive. */
  datatype PointerEvent =
    | Mouse(timeStamp: real, clientX: real, clientY: real)
    | Touches(timeStamp: real, targetTouches: seq<Touch>, changedTouches: seq<Touch>)

  datatype Wheel = Wheel(deltaX: real, deltaY: real)

  /**
   * Everything the handlers and the ticker read and write. `strength` is
   * the bulge filter's strength and `insetShadow` whether the wrapper
   * element carries that class; `thumbs` are the tile positions.
   */
  datatype State = State(
    isDragging: bool,
    isBulging: bool,
    strength: real,
    insetShadow: bool,
    scroll: Vec,
    lastClickedSlug: Option<string>,
    pointerInitiateTimeStamp: Option<real>,
    pointerInitialPosition: Point,
    pointerEndPosition: Point,
    thumbs: seq<Vec>)

  /**
   * The state once the images are placed: one tile per image, each in its
   * own cell of the first wrap period; nothing moving, no bulge, no drag,
   * no remembered slug and no recorded pointer.
   */
  function Init(lay: Layout): (st: State)
    requires Valid(lay)
    ensures |st.thumbs| == lay.count
    ensures forall i :: 0 <= i < |st.thumbs| ==> st.thumbs[i] == TileOrigin(lay, i)
    ensures forall i :: 0 <= i < |st.thumbs| ==>
              0.0 <= st.thumbs[i].x < lay.whole.x && 0.0 <= st.thumbs[i].y < lay.whole.y
    ensures forall i, j :: 0 <= i < j < |st.thumbs| ==> st.thumbs[i] != st.thumbs[j]
    ensures st.scroll == Zero && st.strength == 0.0 && !st.isBulging && !st.isDragging && !st.insetShadow
    ensures st.lastClickedSlug.None? && st.pointerInitiateTimeStamp.None?
    ensures st.pointerInitialPosition == NoPoint && st.pointerEndPosition == NoPoint
  {
    var thumbs := seq(lay.count, i requires 0 <= i < lay.count => TileOrigin(lay, i));
    OriginsLaidOut(lay, thumbs);
    State(false, false, 0.0, false, Zero, None, None, NoPoint, NoPoint, thumbs)
  }

  lemma OriginsLaidOut(lay: Layout, thumbs: seq<Vec>)
    requires Valid(lay)
    requires |thumbs| == lay.count && forall i :: 0 <= i < |thumbs| ==> thumbs[i] == TileOrigin(lay, i)
    ensures forall i :: 0 <= i < |thumbs| ==>
              0.0 <= thumbs[i].x < lay.whole.x && 0.0 <= thumbs[i].y < lay.whole.y
    ensures forall i, j :: 0 <= i < j < |thumbs| ==> thumbs[i] != thumbs[j]
  {
    forall i, j | 0 <= i < j < |thumbs|
      ensures thumbs[i] != thumbs[j]
    {
      TileOriginInjective(lay, i, j);
    }
  }

  /** The coordinates of the first touch, both undefined when there is none. */
  function FirstTouch(touches: seq<Touch>): Point {
    if |touches| > 0 then Point(Some(touches[0].clientX), Some(touches[0].clientY)) else NoPoint
  }

  /** Where a pointer-down happened: the mouse position, or the first target touch. */
  function PressPoint(e: PointerEvent): Point {
    match e
    case Mouse(_, x, y) => Point(Some(x), Some(y))
    case Touches(_, targets, _) => FirstTouch(targets)
  }

  /** Where a pointer-up happened: the mouse position, or the first changed touch. */
  function ReleasePoint(e: PointerEvent): Point {
    match e
    case Mouse(_, x, y) => Point(Some(x), Some(y))
    case Touches(_, _, changed) => FirstTouch(changed)
  }

  /** `_startDrag`: a drag begins; its time and place are recorded and nothing else changes. */
  function StartDrag(st: State, e: PointerEvent): (r: State)
    ensures r.isDragging
    ensures r.pointerInitiateTimeStamp == Some(e.timeStamp)
    ensures e.Mouse? ==> r.pointerInitialPosition == Point(Some(e.clientX), Some(e.clientY))
    ensures e.Touches? && |e.targetTouches| == 0 ==> r.pointerInitialPosition == NoPoint
    ensures e.Touches? && |e.targetTouches| > 0 ==>
              r.pointerInitialPosition == Point(Some(e.targetTouches[0].clientX), Some(e.targetTouches[0].clientY))
    ensures r.(isDragging := st.isDragging,
               pointerInitiateTimeStamp := st.pointerInitiateTimeStamp,
               pointerInitialPosition := st.pointerInitialPosition) == st
  {
    st.(isDragging := true,
        pointerInitialPosition := PressPoint(e),
        pointerInitiateTimeStamp := Some(e.timeStamp))
  }

  /** The recorded pointer-down is usable: its time and both coordinates are truthy. */
  predicate HasStart(st: State) {
    && !Falsy(st.pointerInitiateTimeStamp)
    && !Falsy(st.pointerInitialPosition.x)
    && !Falsy(st.pointerInitialPosition.y)
  }

  /**
   * A click gesture: released under 200 ms after the press, at a known
   * position no more than one pixel away on either axis.
   */
  predicate ClickGesture(st: State, e: PointerEvent)
    requires HasStart(st)
  {
    var p := ReleasePoint(e);
    && e.timeStamp - st.pointerInitiateTimeStamp.value < 200.0
    && p.x.Some? && -1.0 <= p.x.value - st.pointerInitialPosition.x.value <= 1.0
    && p.y.Some? && -1.0 <= p.y.value - st.pointerInitialPosition.y.value <= 1.0
  }

  /** `Math.abs(a - b) <= 1` where `b` may be undefined, which makes the difference NaN. */
  predicate WithinOnePixel(a: real, b: Option<real>) {
    b.Some? && Abs(a - b.value) <= 1.0
  }

  /** The state after a pointer-up, and the slug passed to `onImageClick` if it was called. */
  datatype Release = Release(state: State, clicked: Option<string>)

  /**
   * `_endDrag`. The drag always ends. Without a usable pointer-down record
   * nothing else happens; otherwise the remembered slug is consumed, and
   * the click callback fires, once, exactly for a click gesture while a
   * non-empty slug is remembered: that of the latest tile press not yet
   * consumed by a release with a usable pointer-down record, which need not
   * be the press of this gesture.
   */
  function EndDrag(st: State, e: PointerEvent): (o: Release)
    ensures !o.state.isDragging
    ensures !HasStart(st) ==> o == Release(st.(isDragging := false), None)
    ensures HasStart(st) ==> o.state == st.(isDragging := false, lastClickedSlug := None)
    ensures o.clicked.Some? <==>
              HasStart(st) && ClickGesture(st, e) && st.lastClickedSlug.Some? && st.lastClickedSlug.value != ""
    ensures o.clicked.Some? ==> o.clicked == st.lastClickedSlug
  {
    var ended := st.(isDragging := false);
    if !HasStart(st) then
      Release(ended, None)
    else
      var final := ReleasePoint(e);
      var isClick :=
        && e.timeStamp - st.pointerInitiateTimeStamp.value < 200.0
        && WithinOnePixel(st.pointerInitialPosition.x.value, final.x)
        && WithinOnePixel(st.pointerInitialPosition.y.value, final.y);
      var imageSlug := st.lastClickedSlug;
      var cleared := ended.(lastClickedSlug := None);
      if isClick && imageSlug.Some? && imageSlug.value != "" then
        Release(cleared, imageSlug)
      else
        Release(cleared, None)
  }

  /**
   * `_scroll`: a wheel turn cancels any drag and sets the velocity to one
   * seventh of the wheel delta on each axis.
   */
  function Scroll(st: State, w: Wheel): (r: State)
    ensures !r.isDragging
    ensures 7.0 * r.scroll.x == w.deltaX && 7.0 * r.scroll.y == w.deltaY
    ensures r.(isDragging := st.isDragging, scroll := st.scroll) == st
  {
    st.(isDragging := false, scroll := Vec(w.deltaX / 7.0, w.deltaY / 7.0))
  }

  /** The tracked pointer position after a move: multi-touch moves leave it as it was. */
  function MovePoint(st: State, e: PointerEvent): Point {
    match e
    case Mouse(_, x, y) => Point(Some(x), Some(y))
    case Touches(_, targets, _) =>
      if |targets| == 1 then Point(Some(targets[0].clientX), Some(targets[0].clientY))
      else st.pointerEndPosition
  }

  /** A move steers the wall: a drag is on and both the start and the current position are truthy. */
  predicate Steers(st: State, current: Point) {
    && st.isDragging
    && !Falsy(current.x) && !Falsy(current.y)
    && !Falsy(st.pointerInitialPosition.x) && !Falsy(st.pointerInitialPosition.y)
  }

  /**
   * `_drag`. The tracked position follows a mouse or a single finger; when
   * the move steers, the velocity becomes minus one seventh of the
   * displacement from the pointer-down position, otherwise it is untouched.
   */
  function Drag(st: State, e: PointerEvent): (r: State)
    ensures e.Mouse? ==> r.pointerEndPosition == Point(Some(e.clientX), Some(e.clientY))
    ensures e.Touches? && |e.targetTouches| == 1 ==>
              r.pointerEndPosition == Point(Some(e.targetTouches[0].clientX), Some(e.targetTouches[0].clientY))
    ensures e.Touches? && |e.targetTouches| != 1 ==> r.pointerEndPosition == st.pointerEndPosition
    ensures !Steers(st, r.pointerEndPosition) ==> r.scroll == st.scroll
    ensures Steers(st, r.pointerEndPosition) ==>
              && 7.0 * r.scroll.x == st.pointerInitialPosition.x.value - r.pointerEndPosition.x.value
              && 7.0 * r.scroll.y == st.pointerInitialPosition.y.value - r.pointerEndPosition.y.value
    ensures r.(pointerEndPosition := st.pointerEndPosition, scroll := st.scroll) == st
  {
    var tracked := st.(pointerEndPosition := MovePoint(st, e));
    if !tracked.isDragging then tracked
    else if Falsy(tracked.pointerEndPosition.x) || Falsy(tracked.pointerEndPosition.y) then tracked
    else if Falsy(tracked.pointerInitialPosition.x) || Falsy(tracked.pointerInitialPosition.y) then tracked
    else
      var deltaX := tracked.pointerEndPosition.x.value - tracked.pointerInitialPosition.x.value;
      var deltaY := tracked.pointerEndPosition.y.value - tracked.pointerInitialPosition.y.value;
      tracked.(scroll := Vec(-deltaX / 7.0, -deltaY / 7.0))
  }

  /** The tile `pointerdown` hook: remember the slug of image `i`; nothing else changes. */
  function PressTile(st: State, images: seq<ImageRef>, i: nat): (r: State)
    requires i < |images|
    ensures r.lastClickedSlug == Some(images[i].slug)
    ensures r.(lastClickedSlug := st.lastClickedSlug) == st
  {
    st.(lastClickedSlug := Some(images[i].slug))
  }

  /**
   * Pressing a tile and releasing the mouse 150 ms later one pixel away is
   * a click on that tile, provided the press time and coordinates are
   * non-zero.
   */
  lemma PressAndReleaseIsClick(st: State, images: seq<ImageRef>, i: nat, t: real, x: real, y: real)
    requires i < |images| && images[i].slug != ""
    requires t != 0.0 && x != 0.0 && y != 0.0
    ensures var down := StartDrag(PressTile(st, images, i), Mouse(t, x, y));
            EndDrag(down, Mouse(t + 150.0, x, y + 1.0)).clicked == Some(images[i].slug)
  {
  }

  /** Moving fifty pixels between press and release is a drag: no callback. */
  lemma PressAndMoveIsNoClick(st: State, images: seq<ImageRef>, i: nat)
    requires i < |images|
    ensures var down := StartDrag(PressTile(st, images, i), Mouse(10.0, 100.0, 100.0));
            EndDrag(down, Mouse(160.0, 150.0, 100.0)).clicked == None
  {
  }

  /**
   * A press whose time stamp is 0 is falsy, so the release is ignored
   * entirely: no callback, and the remembered slug is kept.
   */
  lemma PressAtTimeZeroIsIgnored(st: State, images: seq<ImageRef>, i: nat)
    requires i < |images|
    ensures var down := StartDrag(PressTile(st, images, i), Mouse(0.0, 100.0, 100.0));
            var up := EndDrag(down, Mouse(150.0, 100.0, 101.0));
            up.clicked == None && up.state.lastClickedSlug == Some(images[i].slug)
  {
  }
}
