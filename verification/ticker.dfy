/**
 * The per-frame ticker with rendering left out: it steps the bulge
 * strength, snaps small velocities to zero, decays the velocity by 0.9 and
 * re-wraps every tile.
 */
module Ticker {
  import opened Options
  import opened JsNum
  import opened Grid
  import opened Wrap
  import opened Sketch

  const BULGE_MAX: real := 0.2
  const BULGE_STEP: real := 0.025
  const DECAY: real := 0.9

  /** The strengths reachable from 0 in exact arithmetic: whole steps from 0 up to 0.2. */
  predicate BulgeLevel(s: real) {
    0.0 <= s <= BULGE_MAX && IsInt(s / BULGE_STEP)
  }

  /**
   * One frame's change of the bulge strength: up a step while bulging and
   * below 0.2, down a step while not bulging and above 0. From a reachable
   * level that is a clamped step, and the result is reachable again.
   */
  function BulgeStep(bulging: bool, s: real): (r: real)
    ensures BulgeLevel(s) ==> BulgeLevel(r)
    ensures BulgeLevel(s) && bulging ==> r == if s + BULGE_STEP <= BULGE_MAX then s + BULGE_STEP else BULGE_MAX
    ensures BulgeLevel(s) && !bulging ==> r == if s - BULGE_STEP >= 0.0 then s - BULGE_STEP else 0.0
  {
    LevelNeighbours(s);
    if bulging then
      if s < BULGE_MAX then s + BULGE_STEP else s
    else
      if s > 0.0 then s - BULGE_STEP else s
  }

  /** Between 0 and 0.2 the levels are exactly one step apart. */
  lemma LevelNeighbours(s: real)
    ensures BulgeLevel(s) && s < BULGE_MAX ==> s + BULGE_STEP <= BULGE_MAX && BulgeLevel(s + BULGE_STEP)
    ensures BulgeLevel(s) && s > 0.0 ==> s - BULGE_STEP >= 0.0 && BulgeLevel(s - BULGE_STEP)
  {
    if BulgeLevel(s) {
      var k := s / BULGE_STEP;
      assert k.Floor as real == k;
      assert (s + BULGE_STEP) / BULGE_STEP == k + 1.0;
      assert (s - BULGE_STEP) / BULGE_STEP == k - 1.0;
      assert (k + 1.0).Floor == k.Floor + 1;
      assert (k - 1.0).Floor == k.Floor - 1;
    }
  }

  /** Both components lie strictly between `-k` and `k`. */
  predicate Within(v: Vec, k: real) {
    -k < v.x < k && -k < v.y < k
  }

  /**
   * One ticker frame. The bulge strength and the shadow follow the flag as
   * it stands when the frame starts; then a moving wall either snaps to rest
   * (both components under 1) or keeps panning with a decayed velocity that
   * re-wraps every tile.
   */
  function Tick(lay: Layout, st: State): (r: State)
    requires lay.whole.x > 0.0 && lay.whole.y > 0.0
    ensures r.strength == BulgeStep(st.isBulging, st.strength)
    ensures BulgeLevel(st.strength) ==> BulgeLevel(r.strength)
    ensures r.insetShadow == st.isBulging
    ensures |r.thumbs| == |st.thumbs|
    ensures r.isDragging == st.isDragging && r.lastClickedSlug == st.lastClickedSlug
    ensures r.pointerInitiateTimeStamp == st.pointerInitiateTimeStamp
    ensures r.pointerInitialPosition == st.pointerInitialPosition
    ensures r.pointerEndPosition == st.pointerEndPosition
    ensures st.scroll == Zero ==> r == st.(strength := r.strength, insetShadow := r.insetShadow)
    ensures st.scroll != Zero && Within(st.scroll, 1.0) ==>
              r.scroll == Zero && !r.isBulging && r.thumbs == st.thumbs
    ensures !Within(st.scroll, 1.0) ==>
              && r.isBulging
              && r.scroll == Vec(DECAY * st.scroll.x, DECAY * st.scroll.y)
              && forall i :: 0 <= i < |st.thumbs| ==> r.thumbs[i] == CalcPos(lay, r.scroll, st.thumbs[i])
  {
    var framed := st.(strength := BulgeStep(st.isBulging, st.strength), insetShadow := st.isBulging);
    if framed.scroll == Zero then
      framed
    else
      var damped := if Within(framed.scroll, 20.0) then framed.(isBulging := false) else framed;
      if Within(damped.scroll, 1.0) then
        damped.(scroll := Zero)
      else
        var v := Vec(damped.scroll.x * DECAY, damped.scroll.y * DECAY);
        damped.(isBulging := true, scroll := v,
                thumbs := seq(|damped.thumbs|, i requires 0 <= i < |damped.thumbs| => CalcPos(lay, v, damped.thumbs[i])))
  }

  /** `n` consecutive frames. */
  function Ticks(lay: Layout, st: State, n: nat): State
    requires lay.whole.x > 0.0 && lay.whole.y > 0.0
    decreases n
  {
    if n == 0 then st else Ticks(lay, Tick(lay, st), n - 1)
  }

  /**
   * A frame moves every tile by the same amount modulo the wrap period, so
   * the offsets between tiles are kept up to whole periods: the wall stays
   * seamless.
   */
  lemma TickKeepsRelativeLayout(lay: Layout, st: State, i: nat, j: nat)
    requires lay.whole.x > 0.0 && lay.whole.y > 0.0
    requires i < |st.thumbs| && j < |st.thumbs|
    ensures var r := Tick(lay, st);
            && Congruent(r.thumbs[i].x - r.thumbs[j].x, st.thumbs[i].x - st.thumbs[j].x, lay.whole.x)
            && Congruent(r.thumbs[i].y - r.thumbs[j].y, st.thumbs[i].y - st.thumbs[j].y, lay.whole.y)
  {
    var r := Tick(lay, st);
    if Within(st.scroll, 1.0) {
      CongruentRefl(st.thumbs[i].x - st.thumbs[j].x, lay.whole.x);
      CongruentRefl(st.thumbs[i].y - st.thumbs[j].y, lay.whole.y);
    } else {
      SameShift(r.thumbs[i].x, st.thumbs[i].x, r.thumbs[j].x, st.thumbs[j].x, r.scroll.x, lay.whole.x);
      SameShift(r.thumbs[i].y, st.thumbs[i].y, r.thumbs[j].y, st.thumbs[j].y, r.scroll.y, lay.whole.y);
    }
  }

  /** Two points both moved by `-d` modulo `m` keep their difference modulo `m`. */
  lemma SameShift(a': real, a: real, b': real, b: real, d: real, m: real)
    requires m > 0.0
    requires Congruent(a', a - d, m) && Congruent(b', b - d, m)
    ensures Congruent(a' - b', a - b, m)
  {
    var k1 := (a' - (a - d)) / m;
    var k2 := (b' - (b - d)) / m;
    assert (a' - b' - (a - b)) / m == k1 - k2;
    assert (k1 - k2).Floor == k1.Floor - k2.Floor;
  }

  /**
   * Tiles that start in the wrap band stay in it through a frame whose
   * decayed velocity is less than one wrap period on each axis.
   */
  lemma TickKeepsTilesInBand(lay: Layout, st: State)
    requires lay.whole.x > 0.0 && lay.whole.y > 0.0
    requires forall i :: 0 <= i < |st.thumbs| ==> TileInBand(lay, st.thumbs[i])
    requires DECAY * st.scroll.x < lay.whole.x && DECAY * st.scroll.y < lay.whole.y
    ensures forall i :: 0 <= i < |st.thumbs| ==> TileInBand(lay, Tick(lay, st).thumbs[i])
  {
  }

  /** Frames without velocity and without the bulging flag only drain the strength, one step a frame. */
  lemma {:induction false} IdleFramesDrainBulge(lay: Layout, st: State, n: nat)
    requires lay.whole.x > 0.0 && lay.whole.y > 0.0
    requires st.scroll == Zero && !st.isBulging && BulgeLevel(st.strength)
    ensures var r := Ticks(lay, st, n);
            && r.strength == (if st.strength - n as real * BULGE_STEP >= 0.0 then st.strength - n as real * BULGE_STEP else 0.0)
            && r.scroll == Zero && !r.isBulging && r.thumbs == st.thumbs
    decreases n
  {
    if n > 0 {
      var next := Tick(lay, st);
      IdleFramesDrainBulge(lay, next, n - 1);
    }
  }

  /** The strength after `n` frames with the bulging flag set. */
  function BulgeAfter(n: nat, s: real): real {
    if n == 0 then s else BulgeAfter(n - 1, BulgeStep(true, s))
  }

  /**
   * From rest the strength climbs one step a frame and reaches 0.2 at the
   * eighth bulging frame, never earlier, and stays there.
   */
  lemma {:induction false} BulgeRamp(n: nat)
    ensures BulgeAfter(n, 0.0) == (if n <= 8 then n as real * BULGE_STEP else BULGE_MAX)
    ensures n < 8 ==> BulgeAfter(n, 0.0) < BULGE_MAX
  {
    RampFrom(n, 0);
  }

  lemma {:induction false} RampFrom(n: nat, k: nat)
    requires k <= 8
    ensures BulgeAfter(n, k as real * BULGE_STEP) == (if n + k <= 8 then (n + k) as real * BULGE_STEP else BULGE_MAX)
    decreases n
  {
    if n > 0 {
      var s := k as real * BULGE_STEP;
      assert s / BULGE_STEP == k as real;
      assert BulgeLevel(s);
      if k < 8 {
        assert BulgeStep(true, s) == (k + 1) as real * BULGE_STEP;
        RampFrom(n - 1, k + 1);
      } else {
        assert BulgeStep(true, s) == 8 as real * BULGE_STEP;
        RampFrom(n - 1, 8);
      }
    }
  }

  /**
   * While every frame starts bulging (the wall keeps panning at speed 20 or
   * more), the strength follows the bulging ramp one step per frame; from
   * rest it reaches 0.2 on the eighth frame and stays there.
   */
  lemma {:induction false} BulgingFramesRamp(lay: Layout, st: State, n: nat)
    requires lay.whole.x > 0.0 && lay.whole.y > 0.0
    requires forall k :: 0 <= k < n ==> Ticks(lay, st, k).isBulging
    ensures Ticks(lay, st, n).strength == BulgeAfter(n, st.strength)
    ensures st.strength == 0.0 ==>
              Ticks(lay, st, n).strength == (if n <= 8 then n as real * BULGE_STEP else BULGE_MAX)
    decreases n
  {
    if n > 0 {
      var next := Tick(lay, st);
      assert st.isBulging by { assert Ticks(lay, st, 0) == st; }
      forall k | 0 <= k < n - 1
        ensures Ticks(lay, next, k).isBulging
      {
        assert Ticks(lay, st, k + 1) == Ticks(lay, next, k);
      }
      BulgingFramesRamp(lay, next, n - 1);
    }
    BulgeRamp(n);
  }

  /**
   * A bulge with no velocity is stuck: the frames that clear the flag run
   * only while the wall moves, so at rest the flag stays set, the shadow
   * stays on and the strength keeps climbing the ramp.
   */
  lemma {:induction false} StuckBulge(lay: Layout, st: State, n: nat)
    requires lay.whole.x > 0.0 && lay.whole.y > 0.0
    requires st.isBulging && st.scroll == Zero
    ensures var r := Ticks(lay, st, n);
            && r.isBulging && r.scroll == Zero && r.thumbs == st.thumbs
            && (n >= 1 ==> r.insetShadow)
            && r.strength == BulgeAfter(n, st.strength)
    decreases n
  {
    if n > 0 {
      var next := Tick(lay, st);
      StuckBulge(lay, next, n - 1);
    }
  }

  /**
   * Dragging back to the press point while the wall bulges sets the velocity
   * to exactly zero. Twenty frames after the release nothing has moved, yet
   * the flag and shadow are on and the strength sits at 0.2.
   */
  lemma DragBackLeavesBulgeOn(lay: Layout, st: State, t: real, x: real, y: real)
    requires lay.whole.x > 0.0 && lay.whole.y > 0.0
    requires st.isBulging && st.isDragging && st.strength == 0.0
    requires st.pointerInitialPosition == Point(Some(x), Some(y)) && x != 0.0 && y != 0.0
    ensures var back := Drag(st, Mouse(t, x, y));
            var s := Ticks(lay, EndDrag(back, Mouse(t, x, y)).state, 20);
            && back.scroll == Zero
            && s.isBulging && s.insetShadow && s.strength == BULGE_MAX
            && s.scroll == Zero && s.thumbs == st.thumbs
  {
    var back := Drag(st, Mouse(t, x, y));
    assert back.scroll == Vec(-(x - x) / 7.0, -(y - y) / 7.0);
    var up := EndDrag(back, Mouse(t, x, y)).state;
    assert up.isBulging && up.scroll == Zero && up.strength == 0.0 && up.thumbs == st.thumbs;
    StuckBulge(lay, up, 20);
    BulgeRamp(20);
  }

  /** The same with a wheel turn of zero deltas: the bulge stays on at 0.2 over a still wall. */
  lemma ZeroWheelLeavesBulgeOn(lay: Layout, st: State)
    requires lay.whole.x > 0.0 && lay.whole.y > 0.0
    requires st.isBulging && st.strength == 0.0
    ensures var s := Ticks(lay, Scroll(st, Wheel(0.0, 0.0)), 20);
            && s.isBulging && s.insetShadow && s.strength == BULGE_MAX
            && s.scroll == Zero && s.thumbs == st.thumbs
  {
    var wheel := Scroll(st, Wheel(0.0, 0.0));
    assert wheel.scroll == Zero by { assert 7.0 * wheel.scroll.x == 0.0 && 7.0 * wheel.scroll.y == 0.0; }
    StuckBulge(lay, wheel, 20);
    BulgeRamp(20);
  }

  /** The larger of the two component magnitudes. */
  function Magnitude(v: Vec): real {
    if Abs(v.x) < Abs(v.y) then Abs(v.y) else Abs(v.x)
  }

  /**
   * How many frames a velocity takes to come to rest: none at rest, one
   * when the next frame snaps it, otherwise one more than its decayed value.
   * Each decaying frame removes at least a tenth of a pixel of magnitude,
   * which bounds the count.
   */
  function FramesToRest(v: Vec): (n: nat)
    ensures n <= (10.0 * Magnitude(v)).Floor + 1
    decreases (10.0 * Magnitude(v)).Floor
  {
    if v == Zero then 0
    else if Within(v, 1.0) then 1
    else
      var w := Vec(DECAY * v.x, DECAY * v.y);
      assert Magnitude(w) == DECAY * Magnitude(v);
      assert 10.0 * Magnitude(w) <= 10.0 * Magnitude(v) - 1.0;
      1 + FramesToRest(w)
  }

  /** Whatever the starting velocity, the wall comes to rest, exactly, after `FramesToRest` frames. */
  lemma {:induction false} ComesToRest(lay: Layout, st: State)
    requires lay.whole.x > 0.0 && lay.whole.y > 0.0
    ensures Ticks(lay, st, FramesToRest(st.scroll)).scroll == Zero
    decreases FramesToRest(st.scroll)
  {
    if st.scroll != Zero && !Within(st.scroll, 1.0) {
      var next := Tick(lay, st);
      ComesToRest(lay, next);
    }
  }
}
