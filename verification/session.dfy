/**
 * A wall session: the document listeners and the tile hooks dispatch input
 * to the handlers, and the ticker runs between events. Invariants that hold
 * over any sequence of events and frames.
 */
module Session {
  import opened Options
  import opened JsNum
  import opened Grid
  import opened Sketch
  import opened Ticker

  /** The images and the layout computed for them. */
  datatype Wall = Wall(images: seq<ImageRef>, lay: Layout)

  predicate WellFormed(wall: Wall) {
    Valid(wall.lay) && wall.lay.count == |wall.images|
  }

  /**
   * What reaches the state: a ticker frame, one of the document listeners
   * (touchstart/mousedown, touchend/mouseup, touchmove/mousemove, wheel), or
   * a `pointerdown` on tile `i`.
   */
  datatype Event =
    | Frame
    | PointerDown(e: PointerEvent)
    | PointerUp(e: PointerEvent)
    | PointerMove(e: PointerEvent)
    | WheelTurn(w: Wheel)
    | TilePointerDown(i: nat)

  /**
   * Routes one event to its handler; a tile index with no tile is no event.
   * Only a release can report a click, and only a frame moves the tiles or
   * changes the bulge strength.
   */
  function Dispatch(wall: Wall, st: State, ev: Event): (r: Release)
    requires WellFormed(wall)
    ensures r.clicked.Some? ==> ev.PointerUp?
    ensures !ev.Frame? ==> r.state.thumbs == st.thumbs && r.state.strength == st.strength
    ensures ev.TilePointerDown? && ev.i >= |wall.images| ==> r.state == st
    ensures ev.TilePointerDown? && ev.i < |wall.images| ==> r.state.lastClickedSlug == Some(wall.images[ev.i].slug)
  {
    match ev
    case Frame => Release(Tick(wall.lay, st), None)
    case PointerDown(e) => Release(StartDrag(st, e), None)
    case PointerUp(e) => EndDrag(st, e)
    case PointerMove(e) => Release(Drag(st, e), None)
    case WheelTurn(w) => Release(Scroll(st, w), None)
    case TilePointerDown(i) =>
      if i < |wall.images| then Release(PressTile(st, wall.images, i), None) else Release(st, None)
  }

  /** The final state after a sequence of events, with every slug passed to `onImageClick`, in order. */
  datatype Outcome = Outcome(state: State, clicks: seq<string>)

  function Run(wall: Wall, st: State, evs: seq<Event>): Outcome
    requires WellFormed(wall)
    decreases |evs|
  {
    if |evs| == 0 then Outcome(st, [])
    else
      var o := Dispatch(wall, st, evs[0]);
      var rest := Run(wall, o.state, evs[1..]);
      Outcome(rest.state, (if o.clicked.Some? then [o.clicked.value] else []) + rest.clicks)
  }

  /** `s` is the slug of one of the wall's images. */
  predicate IsImageSlug(wall: Wall, s: string) {
    exists k :: 0 <= k < |wall.images| && wall.images[k].slug == s
  }

  /**
   * What every reachable state satisfies: one tile per image, a bulge
   * strength on a reachable level in [0, 0.2], and a remembered slug that
   * belongs to one of the images.
   */
  predicate Consistent(wall: Wall, st: State) {
    && |st.thumbs| == |wall.images|
    && BulgeLevel(st.strength)
    && (st.lastClickedSlug.Some? ==> IsImageSlug(wall, st.lastClickedSlug.value))
  }

  /** The state a well-formed wall starts in is consistent. */
  lemma InitConsistent(wall: Wall)
    requires WellFormed(wall)
    ensures Consistent(wall, Init(wall.lay))
  {
    assert 0.0 / BULGE_STEP == 0.0;
  }

  /** Any one event keeps the state consistent, and a click reports a non-empty image slug. */
  lemma DispatchConsistent(wall: Wall, st: State, ev: Event)
    requires WellFormed(wall) && Consistent(wall, st)
    ensures Consistent(wall, Dispatch(wall, st, ev).state)
    ensures Dispatch(wall, st, ev).clicked.Some? ==>
              Dispatch(wall, st, ev).clicked.value != "" && IsImageSlug(wall, Dispatch(wall, st, ev).clicked.value)
  {
    match ev
    case TilePointerDown(i) =>
      if i < |wall.images| {
        assert wall.images[i].slug == PressTile(st, wall.images, i).lastClickedSlug.value;
      }
    case _ =>
  }

  /**
   * Over any sequence of events and frames the state stays consistent: the
   * bulge strength never leaves [0, 0.2], and every click reports the
   * non-empty slug of an image on the wall.
   */
  lemma {:induction false} RunConsistent(wall: Wall, st: State, evs: seq<Event>)
    requires WellFormed(wall) && Consistent(wall, st)
    ensures var o := Run(wall, st, evs);
            && Consistent(wall, o.state)
            && 0.0 <= o.state.strength <= BULGE_MAX
            && forall c :: 0 <= c < |o.clicks| ==> o.clicks[c] != "" && IsImageSlug(wall, o.clicks[c])
    decreases |evs|
  {
    if |evs| > 0 {
      var o := Dispatch(wall, st, evs[0]);
      DispatchConsistent(wall, st, evs[0]);
      RunConsistent(wall, o.state, evs[1..]);
    }
  }

  /** The offset from tile `j` to tile `i`. */
  function Offset(thumbs: seq<Vec>, i: nat, j: nat): Vec
    requires i < |thumbs| && j < |thumbs|
  {
    Vec(thumbs[i].x - thumbs[j].x, thumbs[i].y - thumbs[j].y)
  }

  /** `u` and `v` differ by whole wrap periods on each axis. */
  predicate SamePlace(u: Vec, v: Vec, whole: Vec)
    requires whole.x > 0.0 && whole.y > 0.0
  {
    Congruent(u.x, v.x, whole.x) && Congruent(u.y, v.y, whole.y)
  }

  /** One event keeps every pairwise tile offset up to whole periods. */
  lemma DispatchKeepsRelativeLayout(wall: Wall, st: State, ev: Event, i: nat, j: nat)
    requires WellFormed(wall) && i < |st.thumbs| && j < |st.thumbs|
    ensures var r := Dispatch(wall, st, ev).state;
            && |r.thumbs| == |st.thumbs|
            && SamePlace(Offset(r.thumbs, i, j), Offset(st.thumbs, i, j), wall.lay.whole)
  {
    if ev.Frame? {
      TickKeepsRelativeLayout(wall.lay, st, i, j);
    } else {
      CongruentRefl(st.thumbs[i].x - st.thumbs[j].x, wall.lay.whole.x);
      CongruentRefl(st.thumbs[i].y - st.thumbs[j].y, wall.lay.whole.y);
    }
  }

  /**
   * The wall stays seamless over any sequence of events and frames: the
   * offset between any two tiles changes only by whole wrap periods.
   */
  lemma {:induction false} RunKeepsRelativeLayout(wall: Wall, st: State, evs: seq<Event>, i: nat, j: nat)
    requires WellFormed(wall) && i < |st.thumbs| && j < |st.thumbs|
    ensures var r := Run(wall, st, evs).state;
            && |r.thumbs| == |st.thumbs|
            && SamePlace(Offset(r.thumbs, i, j), Offset(st.thumbs, i, j), wall.lay.whole)
    decreases |evs|
  {
    var whole := wall.lay.whole;
    if |evs| == 0 {
      SamePlaceTrans(Offset(st.thumbs, i, j), Offset(st.thumbs, i, j), Offset(st.thumbs, i, j), whole);
    } else {
      var mid := Dispatch(wall, st, evs[0]).state;
      var r := Run(wall, st, evs).state;
      assert r == Run(wall, mid, evs[1..]).state;
      DispatchKeepsRelativeLayout(wall, st, evs[0], i, j);
      RunKeepsRelativeLayout(wall, mid, evs[1..], i, j);
      SamePlaceTrans(Offset(r.thumbs, i, j), Offset(mid.thumbs, i, j), Offset(st.thumbs, i, j), whole);
    }
  }

  /** Differing by whole periods is reflexive and transitive. */
  lemma SamePlaceTrans(c: Vec, b: Vec, a: Vec, whole: Vec)
    requires whole.x > 0.0 && whole.y > 0.0
    ensures SamePlace(a, a, whole)
    ensures SamePlace(c, b, whole) && SamePlace(b, a, whole) ==> SamePlace(c, a, whole)
  {
    CongruentRefl(a.x, whole.x);
    CongruentRefl(a.y, whole.y);
    if SamePlace(c, b, whole) && SamePlace(b, a, whole) {
      CongruentTrans(c.x, b.x, a.x, whole.x);
      CongruentTrans(c.y, b.y, a.y, whole.y);
    }
  }

  /**
   * A remembered slug outlives its gesture: press tile `i`, lose that
   * press's release (a cancelled touch reaches no listener), then click
   * anywhere, off every tile too, and the callback reports image `i`.
   */
  lemma LeftoverSlugIsReported(wall: Wall, st: State, i: nat, cancelled: PointerEvent)
    requires WellFormed(wall) && i < |wall.images| && wall.images[i].slug != ""
    ensures Run(wall, st, [TilePointerDown(i), PointerDown(cancelled),
                           PointerDown(Mouse(900.0, 300.0, 300.0)),
                           PointerUp(Mouse(950.0, 300.0, 300.0))]).clicks == [wall.images[i].slug]
  {
    var evs := [TilePointerDown(i), PointerDown(cancelled),
                PointerDown(Mouse(900.0, 300.0, 300.0)), PointerUp(Mouse(950.0, 300.0, 300.0))];
    var s1 := PressTile(st, wall.images, i);
    var s2 := StartDrag(s1, cancelled);
    var s3 := StartDrag(s2, Mouse(900.0, 300.0, 300.0));
    assert s3.lastClickedSlug == Some(wall.images[i].slug);
    assert HasStart(s3);
    var up := EndDrag(s3, Mouse(950.0, 300.0, 300.0));
    assert up.clicked == Some(wall.images[i].slug);
    var last := [PointerUp(Mouse(950.0, 300.0, 300.0))];
    assert Run(wall, s3, last).clicks == [wall.images[i].slug] by {
      assert last[1..] == [];
    }
    assert Run(wall, s2, [PointerDown(Mouse(900.0, 300.0, 300.0))] + last).clicks == Run(wall, s3, last).clicks by {
      assert ([PointerDown(Mouse(900.0, 300.0, 300.0))] + last)[1..] == last;
    }
    assert evs[1..] == [PointerDown(cancelled), PointerDown(Mouse(900.0, 300.0, 300.0))] + last;
    assert evs[1..][1..] == [PointerDown(Mouse(900.0, 300.0, 300.0))] + last;
  }
}
