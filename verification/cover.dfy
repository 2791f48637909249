/**
 * `calculate` / `fitCover`: where and how large to draw an image inside a
 * box so that it covers the box (or, with `cover` false, fits inside it),
 * like CSS `object-fit`. Offsets use `>> 1`, so they are 32-bit integers.
 */
module Cover {
  import opened JsNum

  /** A width and a height. */
  datatype Box = Box(w: real, h: real)

  /**
   * The drawn image inside `container`: its size and scale, and the offsets
   * `(container.w - width) >> 1` and `(container.h - height) >> 1`.
   */
  datatype Placement = Placement(container: Box, width: real, height: real, scale: real) {
    function Left(): int {
      ShiftRight1(container.w - width)
    }

    function Top(): int {
      ShiftRight1(container.h - height)
    }
  }

  /**
   * `calculate`: scales the target uniformly by the ratio `Ratio` picks, and
   * offsets it by half the leftover room on each axis, floored after
   * truncation to 32 bits.
   */
  function Calculate(target: Box, container: Box, cover: bool): (p: Placement)
    requires target.w > 0.0 && target.h > 0.0
    ensures p.container == container && p.scale == Ratio(target, container, cover)
    ensures p.width == target.w * p.scale && p.height == target.h * p.scale
    ensures cover ==> p.width >= container.w && p.height >= container.h
    ensures !cover ==> p.width <= container.w && p.height <= container.h
    ensures p.width == container.w || p.height == container.h
  {
    var r := Ratio(target, container, cover);
    Placement(container, target.w * r, target.h * r, r)
  }

  /** The larger (cover) or smaller (contain) of the box-to-target ratios, and the sides it yields. */
  function Ratio(target: Box, container: Box, cover: bool): (r: real)
    requires target.w > 0.0 && target.h > 0.0
    ensures cover ==> target.w * r >= container.w && target.h * r >= container.h
    ensures !cover ==> target.w * r <= container.w && target.h * r <= container.h
    ensures target.w * r == container.w || target.h * r == container.h
  {
    var rw := container.w / target.w;
    var rh := container.h / target.h;
    var r := if cover then (if rw > rh then rw else rh) else (if rw < rh then rw else rh);
    ChosenScale(target, container, cover, rw, rh, r);
    r
  }

  /** The sides the chosen ratio produces, compared with the box. */
  lemma ChosenScale(target: Box, container: Box, cover: bool, rw: real, rh: real, r: real)
    requires target.w > 0.0 && target.h > 0.0
    requires rw == container.w / target.w && rh == container.h / target.h
    requires r == if cover then (if rw > rh then rw else rh) else (if rw < rh then rw else rh)
    ensures cover ==> target.w * r >= container.w && target.h * r >= container.h
    ensures !cover ==> target.w * r <= container.w && target.h * r <= container.h
    ensures target.w * r == container.w || target.h * r == container.h
  {
    ScaleBounds(target.w, container.w, rw, r);
    ScaleBounds(target.h, container.h, rh, r);
    if r == rw {
      assert target.w * r == container.w;
    } else {
      assert target.h * r == container.h;
    }
  }

  /** Scaling a side `t` by `r` against the ratio `ratio = c / t`. */
  lemma ScaleBounds(t: real, c: real, ratio: real, r: real)
    requires t > 0.0 && ratio == c / t
    ensures t * ratio == c
    ensures r >= ratio ==> t * r >= c
    ensures r <= ratio ==> t * r <= c
  {
    assert t * r - c == t * (r - ratio);
  }

  /** `fitCover`: `calculate` with `cover` set. */
  function FitCover(target: Box, container: Box): (p: Placement)
    requires target.w > 0.0 && target.h > 0.0
    ensures p.container == container
    ensures p.width >= container.w && p.height >= container.h
    ensures p.width == container.w || p.height == container.h
    ensures p.width == target.w * p.scale && p.height == target.h * p.scale
  {
    Calculate(target, container, true)
  }

  /**
   * A covering placement overflows (or meets) the box on both axes, so its
   * offsets are never positive while the overflow fits in 32 bits.
   */
  lemma FitCoverOffsets(target: Box, container: Box)
    requires target.w > 0.0 && target.h > 0.0
    ensures var p := FitCover(target, container);
            && (container.w - p.width >= -(TWO_31 as real) ==> p.Left() <= 0)
            && (container.h - p.height >= -(TWO_31 as real) ==> p.Top() <= 0)
  {
    var p := FitCover(target, container);
    ShiftRight1Sign(container.w - p.width);
    ShiftRight1Sign(container.h - p.height);
  }

  /**
   * With `cover` clear the image fits inside the box, touching it on one
   * axis, and its offsets are never negative while the room fits in 32 bits.
   */
  lemma ContainFits(target: Box, container: Box)
    requires target.w > 0.0 && target.h > 0.0
    ensures var p := Calculate(target, container, false);
            && p.width <= container.w && p.height <= container.h
            && (p.width == container.w || p.height == container.h)
            && (container.w - p.width < TWO_31 as real ==> p.Left() >= 0)
            && (container.h - p.height < TWO_31 as real ==> p.Top() >= 0)
  {
    var p := Calculate(target, container, false);
    ShiftRight1Sign(container.w - p.width);
    ShiftRight1Sign(container.h - p.height);
  }

  /** Both sides are scaled alike, so the drawn image keeps the target's aspect ratio. */
  lemma CalculateKeepsAspect(target: Box, container: Box, cover: bool)
    requires target.w > 0.0 && target.h > 0.0
    ensures var p := Calculate(target, container, cover);
            p.width * target.h == p.height * target.w
  {
    var p := Calculate(target, container, cover);
    UniformScale(target.w, target.h, p.scale);
  }

  lemma UniformScale(w: real, h: real, s: real)
    ensures (w * s) * h == (h * s) * w
  {
  }

  /**
   * The cover scale is the least scale that covers the box: it is the larger
   * of the two ratios, and no smaller scale reaches both sides.
   */
  lemma CoverScaleIsLeast(target: Box, container: Box, s: real)
    requires target.w > 0.0 && target.h > 0.0
    requires s * target.w >= container.w && s * target.h >= container.h
    ensures FitCover(target, container).scale <= s
    ensures var r := FitCover(target, container).scale;
            r == (if container.w / target.w > container.h / target.h then container.w / target.w else container.h / target.h)
  {
    var p := FitCover(target, container);
    var rw := container.w / target.w;
    var rh := container.h / target.h;
    ScaleBounds(target.w, container.w, rw, s);
    ScaleBounds(target.h, container.h, rh, s);
    assert s >= rw by {
      if s < rw {
        ScaleStrict(target.w, s, rw);
      }
    }
    assert s >= rh by {
      if s < rh {
        ScaleStrict(target.h, s, rh);
      }
    }
  }

  lemma ScaleStrict(t: real, a: real, b: real)
    requires t > 0.0 && a < b
    ensures t * a < t * b
  {
  }
}
