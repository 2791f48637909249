/**
 * The layout profile: margin and tile box chosen from the viewport width by
 * a table of breakpoints (600, 700, 850).
 */
module Dimensions {

  datatype Dimensions = Dimensions(margin: real, width: real, height: real)

  /**
   * `_getImageDimensions` for viewport width `viewport`. Each band scales
   * the viewport down by its own factor (1.2, 1.2, 1.6, 3.4) and gives the
   * tile box that width and a fixed multiple of it as height, less an inset
   * on both sides: twice 40 in the first three bands, twice 60 in the last.
   */
  function ImageDimensions(viewport: real): (d: Dimensions)
    ensures viewport <= 700.0 ==> d.margin == 40.0
    ensures 700.0 < viewport <= 850.0 ==> d.margin == 50.0
    ensures 850.0 < viewport ==> d.margin == 60.0
    ensures viewport <= 600.0 ==>
              1.2 * (d.width + 80.0) == viewport && d.height + 80.0 == 1.3 * (d.width + 80.0)
    ensures 600.0 < viewport <= 700.0 ==>
              1.2 * (d.width + 80.0) == viewport && d.height + 80.0 == 1.2 * (d.width + 80.0)
    ensures 700.0 < viewport <= 850.0 ==>
              1.6 * (d.width + 80.0) == viewport && d.height + 80.0 == 1.2 * (d.width + 80.0)
    ensures 850.0 < viewport ==>
              3.4 * (d.width + 120.0) == viewport && d.height + 120.0 == 1.05 * (d.width + 120.0)
  {
    if viewport <= 600.0 then
      Dimensions(40.0, viewport / 1.2 - 2.0 * 40.0, (viewport / 1.2) * 1.3 - 2.0 * 40.0)
    else if viewport <= 700.0 then
      Dimensions(40.0, viewport / 1.2 - 2.0 * 40.0, (viewport / 1.2) * 1.2 - 2.0 * 40.0)
    else if viewport <= 850.0 then
      Dimensions(50.0, viewport / 1.6 - 2.0 * 40.0, (viewport / 1.6) * 1.2 - 2.0 * 40.0)
    else
      Dimensions(60.0, viewport / 3.4 - 2.0 * 60.0, (viewport / 3.4) * 1.05 - 2.0 * 60.0)
  }

  /**
   * The wall has a positive cell pitch on both axes exactly when the
   * viewport is wider than 48: only the narrowest band can produce a tile
   * box thinner than minus its margin.
   */
  lemma PitchPositiveIff(viewport: real)
    ensures var d := ImageDimensions(viewport);
            (d.width + d.margin > 0.0 && d.height + d.margin > 0.0) <==> viewport > 48.0
  {
  }

  /** Every band makes a tile taller than it is wide once its box is positive. */
  lemma TilesArePortrait(viewport: real)
    requires ImageDimensions(viewport).width > 0.0
    ensures ImageDimensions(viewport).height > ImageDimensions(viewport).width
  {
  }
}
