/**
 * `_calcPos`: moving a tile by the scroll delta and folding the result back
 * into a band one wrap period wide, using JavaScript's truncated `%`.
 */
module Wrap {
  import opened JsNum
  import opened Grid

  /** The band `[-(size + margin), whole - size - margin)` a wrapped coordinate is folded into. */
  predicate InBand(p: real, whole: real, size: real, margin: real) {
    -(size + margin) <= p < whole - size - margin
  }

  /**
   * One axis of `_calcPos`: `((pos - delta + whole + size + margin) % whole) - size - margin`.
   * The result is always the moved position up to whole periods; it lands in
   * the band when the shifted sum is non-negative, and at or below the band
   * otherwise (the truncated `%` keeps the sign of a negative sum).
   */
  function CalcAxis(pos: real, delta: real, whole: real, size: real, margin: real): (r: real)
    requires whole > 0.0
    ensures Congruent(r, pos - delta, whole)
    ensures pos - delta + whole + size + margin >= 0.0 ==> InBand(r, whole, size, margin)
    ensures pos - delta + whole + size + margin < 0.0 ==> -whole - size - margin < r <= -(size + margin)
  {
    var sum := pos - delta + whole + size + margin;
    var folded := Rem(sum, whole);
    var r := folded - size - margin;
    CongruentShift(folded, sum, -(size + margin), whole);
    assert (pos - delta + whole - (pos - delta)) / whole == 1.0;
    CongruentTrans(r, pos - delta + whole, pos - delta, whole);
    r
  }

  /** `_calcPos` on both axes, with the layout's wrap period, tile box and margin. */
  function CalcPos(lay: Layout, scroll: Vec, pos: Vec): (r: Vec)
    requires lay.whole.x > 0.0 && lay.whole.y > 0.0
    ensures Congruent(r.x, pos.x - scroll.x, lay.whole.x)
    ensures Congruent(r.y, pos.y - scroll.y, lay.whole.y)
    ensures TileInBand(lay, pos) && scroll.x < lay.whole.x && scroll.y < lay.whole.y ==> TileInBand(lay, r)
  {
    Vec(CalcAxis(pos.x, scroll.x, lay.whole.x, lay.width, lay.margin),
        CalcAxis(pos.y, scroll.y, lay.whole.y, lay.height, lay.margin))
  }

  /** A tile position lies in the wrap band on both axes. */
  predicate TileInBand(lay: Layout, p: Vec) {
    && InBand(p.x, lay.whole.x, lay.width, lay.margin)
    && InBand(p.y, lay.whole.y, lay.height, lay.margin)
  }

  /** With no scroll, a position already in the band is left where it is. */
  lemma CalcAxisFixedPoint(pos: real, whole: real, size: real, margin: real)
    requires whole > 0.0 && InBand(pos, whole, size, margin)
    ensures CalcAxis(pos, 0.0, whole, size, margin) == pos
  {
    var r := CalcAxis(pos, 0.0, whole, size, margin);
    assert pos - 0.0 == pos;
    CongruentInWindow(r, pos, -(size + margin), whole);
  }

  /**
   * Seamless wrapping: when both shifted sums are non-negative, the result
   * depends only on the moved position modulo the wrap period.
   */
  lemma CalcAxisOnlyPeriodMatters(pos1: real, delta1: real, pos2: real, delta2: real,
                                  whole: real, size: real, margin: real)
    requires whole > 0.0
    requires pos1 - delta1 + whole + size + margin >= 0.0
    requires pos2 - delta2 + whole + size + margin >= 0.0
    requires Congruent(pos1 - delta1, pos2 - delta2, whole)
    ensures CalcAxis(pos1, delta1, whole, size, margin) == CalcAxis(pos2, delta2, whole, size, margin)
  {
    var r1 := CalcAxis(pos1, delta1, whole, size, margin);
    var r2 := CalcAxis(pos2, delta2, whole, size, margin);
    CongruentTrans(r1, pos1 - delta1, pos2 - delta2, whole);
    CongruentSymm(r2, pos2 - delta2, whole);
    CongruentTrans(r1, pos2 - delta2, r2, whole);
    CongruentInWindow(r1, r2, -(size + margin), whole);
  }

  /**
   * The truncated `%` does not fold a large positive delta back: a tile at 0
   * in a one-column wall (period 360, tile 300, margin 60) moved by 800
   * lands at -440, below the band that starts at -360.
   */
  lemma CalcAxisCanLeaveBand()
    ensures CalcAxis(0.0, 800.0, 360.0, 300.0, 60.0) == -440.0
    ensures !InBand(CalcAxis(0.0, 800.0, 360.0, 300.0, 60.0), 360.0, 300.0, 60.0)
  {
    var sum := 0.0 - 800.0 + 360.0 + 300.0 + 60.0;
    assert sum == -80.0;
    assert Trunc(sum / 360.0) == 0;
  }

  /**
   * When the negative shifted sum is a whole number of periods the
   * remainder is 0, so the tile lands exactly on the band's lower edge.
   */
  lemma CalcAxisWholePeriodsBelow()
    ensures CalcAxis(0.0, 1080.0, 360.0, 300.0, 60.0) == -360.0
    ensures InBand(CalcAxis(0.0, 1080.0, 360.0, 300.0, 60.0), 360.0, 300.0, 60.0)
  {
    var sum := 0.0 - 1080.0 + 360.0 + 300.0 + 60.0;
    assert sum == -360.0;
    assert Trunc(sum / 360.0) == -1;
  }

  /**
   * A tile left below the band stays there while the decayed delta keeps the
   * shifted sum negative: from -440, a delta of 720 (800 after one 0.9
   * decay) gives -440 again. It returns to the band only on a frame where
   * `pos - delta + whole + size + margin >= 0`, as `CalcAxis` states.
   */
  lemma CalcAxisStaysBelow()
    ensures CalcAxis(-440.0, 720.0, 360.0, 300.0, 60.0) == -440.0
    ensures !InBand(CalcAxis(-440.0, 720.0, 360.0, 300.0, 60.0), 360.0, 300.0, 60.0)
  {
    var sum := -440.0 - 720.0 + 360.0 + 300.0 + 60.0;
    assert sum == -440.0;
    assert Trunc(sum / 360.0) == -1;
  }
}
