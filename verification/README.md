# Infinite image wall — a Dafny model

The image wall is a full-screen pannable wall of image tiles that wraps
seamlessly in both directions. Tiles are laid out in a near-square grid. The
wall is panned by dragging or by the mouse wheel; the velocity decays each
frame, and a bulge filter grows while the wall moves. A short, nearly
stationary press-and-release on a tile reports the slug of the image
descriptor at that tile's index to a click callback.

This project models the wall's logic over exact reals and proves properties of it:

- **`Grid`**: the grid shape (`ceil(sqrt(n))` rows, `ceil(n / rows)` columns), the wrap period `WHOLE_WIDTH`, and the cell each tile starts in.
- **`Dimensions`**: `_getImageDimensions`, the tile box and margin per viewport band.
- **`JsNum`**: the JavaScript number semantics the code relies on: the truncated `%`, ToInt32, `>> 1`, and falsy numbers.
- **`Wrap`**: `_calcPos`, which folds a moved tile back into a band one period wide.
- **`Sketch`**: the interaction state and the handlers `_startDrag`, `_endDrag` (the click-versus-drag classifier), `_scroll`, `_drag`, and the tile `pointerdown` hook.
- **`Ticker`**: one ticker frame. It covers the bulge ramp, the velocity snap and decay, and the re-wrap of every tile. It also covers what repeated frames do.
- **`Session`**: any interleaving of listener events and frames, with invariants over whole runs.
- **`Cover`**: `fitCover` / `calculate` from `utility.ts`, the object-fit cover placement.
- **`Transform`**: `transformData` from `utility.ts`, which turns the GraphQL response into image descriptors. It models JavaScript values and the caught TypeError.

Numbers are Dafny `real`s, so there is no floating-point rounding. Where the
code relies on JavaScript-specific number behaviour, the model spells it out:
- `%` truncates toward zero, so the result carries the dividend's sign (`JsNum.Rem`).
- `>> 1` first converts to a signed 32-bit integer with wrap-around (`JsNum.ToInt32`, `JsNum.ShiftRight1`).
- `0`, `null` and `undefined` are falsy (`JsNum.Falsy` over `Option<real>`).

Behaviour worth knowing. The model follows the code in each of these cases:

- **The wrap band.** The code adds one period before the `%`, and the truncated `%` keeps the sign of a negative sum. So a scroll delta larger than one period plus the tile's own offset puts the tile at or below the band's lower edge (`Wrap.CalcAxisCanLeaveBand`: -440 against a band starting at -360). It lands exactly on the edge, which is inside the band, only when the negative sum is a whole number of periods (`Wrap.CalcAxisWholePeriodsBelow`). `Wrap.CalcAxis` states both cases. While the shifted sum `pos - delta + whole + size + margin` stays negative the tile stays at or below the lower edge: the next frame's delta of 720 leaves it at -440 (`Wrap.CalcAxisStaysBelow`). It is folded into the band on every frame whose sum is non-negative.
- **Bulging at low speed.** The code clears `isBulging` below speed 20 and then sets it again on the same frame unless the snap below 1 returns first. `Ticker.Tick` states that any frame that keeps panning leaves the flag set.
- **The pointer records.** A release clears only `isDragging` and the remembered slug (`Sketch.EndDrag`). A new press always overwrites the press time and position (`Sketch.StartDrag`), but not the tracked end position. So a touch move with other than one target touch, after a new press, steers from the press point to the previous gesture's end point (`Sketch.Drag`). A release with no new press is classified against the old press record and clears the remembered slug.
- **Clicks report the descriptor at the tile's index.** `loadImages` hands the images over in the order they finish loading (src/utility.ts:17-21), and tile `i` draws `loadedImages[i]` (src/pixiJsSketch.ts:174-176). The tile's `pointerdown` hook, however, remembers `images[i].slug`, the descriptor at index `i` in request order (src/pixiJsSketch.ts:215-216; `Sketch.PressTile`). When images finish loading out of request order, a click reports the slug of a different image from the one shown on the tile.
- **A bulge can get stuck at rest.** The ticker clears `isBulging` only while the velocity is non-zero. A drag back to the press point, or a wheel turn with zero deltas, sets the velocity to exactly zero while the flag is set. From then on nothing moves, but the flag and the inset shadow stay on and the strength climbs to 0.2 and stays there (`Ticker.StuckBulge`, `Ticker.DragBackLeavesBulgeOn`, `Ticker.ZeroWheelLeavesBulgeOn`). The bulge drains at rest only when the flag was already clear (`Ticker.IdleFramesDrainBulge`).
- **A leftover slug is reported by the next click.** A tile press remembers its slug until a release with a truthy press record consumes it. If that release never arrives, the next click gesture anywhere reports the old slug, even one in a margin where no tile hook fires (`Session.LeftoverSlugIsReported`). The release can be lost to a cancelled touch, since there is no `touchcancel` listener (src/pixiJsSketch.ts:154-160). It can also return early because of a falsy press time or coordinate.
- **Press time 0.** A press whose time stamp is exactly 0 is falsy, so the release returns before any classification. It fires no callback and keeps the remembered slug (`Sketch.PressAtTimeZeroIsIgnored`).

Other points about the model:
- `Math.ceil(Math.sqrt(n))` and `Math.ceil(n / rows)` are exact in floating point for any realistic tile count. They are modelled as integer functions, `Grid.CeilSqrt` and `Grid.CeilDiv`.
- The browser window width enters `Dimensions.ImageDimensions` as a parameter.
- Event time stamps and coordinates enter as fields of the event datatypes.
- The click callback's calls are collected, in order, in `Session.Outcome`.

## Model

| member | source | states |
|---|---|---|
| JsNum.Rem | src/pixiJsSketch.ts:430-432 | `a % m` differs from `a` by whole periods. For a positive period it lies in `[0, m)` for a non-negative dividend and in `(-m, 0]` for a negative one: the sign follows the dividend. |
| JsNum.ToInt32 | src/utility.ts:79-80 | The 32-bit conversion before `>>` yields a signed 32-bit value congruent to the truncated input modulo 2^32. |
| JsNum.ShiftRight1 | src/utility.ts:79-80 | `x >> 1` is the floor half of the 32-bit value: `2v <= ToInt32(x) <= 2v + 1`, inside the 31-bit range. |
| JsNum.ShiftRight1Sign | src/utility.ts:79-80 | Within the signed 32-bit range, `>> 1` keeps the sign of its operand: a non-positive operand gives a non-positive result, and a non-negative one a non-negative result. |
| Grid.CeilSqrt | src/pixiJsSketch.ts:131 | The row count is the least `r` whose square reaches the tile count. |
| Grid.CeilDiv | src/pixiJsSketch.ts:132 | The column count is the least `q` with `count <= q * rows`. |
| Grid.MakeLayout | src/pixiJsSketch.ts:130-137 | The grid has room for every tile, is at most as wide as tall, and leaves no row or column empty. The wrap period is positive on each axis with a positive cell pitch. |
| Grid.GridShapeExamples | src/pixiJsSketch.ts:131-132 | 10 tiles give 4 rows by 3 columns; 16 give 4 by 4; 25 give 5 by 5. |
| Grid.TileOrigin | src/pixiJsSketch.ts:203-204 | In a layout with room for every tile and positive pitches, every tile's starting position lies inside the first wrap period on both axes. |
| Grid.TileOriginInjective | src/pixiJsSketch.ts:203-204 | Distinct tiles start at distinct positions. |
| Dimensions.ImageDimensions | src/pixiJsSketch.ts:452-483 | Gives the margin of each viewport band (40, 40, 50, 60). Each band's tile width is the viewport scaled down by the band's factor (1.2, 1.2, 1.6, 3.4), less the inset on both sides. Its height is a fixed multiple of that scaled width (1.3, 1.2, 1.2, 1.05), less the same inset. |
| Dimensions.PitchPositiveIff | src/pixiJsSketch.ts:452-483 | The cell pitch is positive on both axes exactly when the viewport is wider than 48. |
| Dimensions.TilesArePortrait | src/pixiJsSketch.ts:452-483 | In every band, a tile with a positive width is taller than it is wide. |
| Wrap.CalcAxis | src/pixiJsSketch.ts:430-434 | The wrapped coordinate is the moved position up to whole periods. It lies in the band `[-(size+margin), whole-size-margin)` when the shifted sum is non-negative. Otherwise it lies at or below the band's lower edge, within one period of it. |
| Wrap.CalcPos | src/pixiJsSketch.ts:420-450 | Both axes wrap modulo their own period. A tile in the band stays in the band under a scroll smaller than one period. |
| Wrap.CalcAxisFixedPoint | src/pixiJsSketch.ts:430-434 | With no scroll, a position already in the band does not move. |
| Wrap.CalcAxisOnlyPeriodMatters | src/pixiJsSketch.ts:430-444 | When the shifted sums are non-negative, the result depends only on the moved position modulo the period (seamless wrapping). |
| Wrap.CalcAxisCanLeaveBand | src/pixiJsSketch.ts:430-434 | With period 360, tile 300 and margin 60, a tile at 0 moved by 800 lands at -440. That is outside the band. |
| Wrap.CalcAxisWholePeriodsBelow | src/pixiJsSketch.ts:430-434 | A tile at 0 moved by 1080 in a 360 period gives a shifted sum of exactly -360 and lands on -360, the band's lower edge, inside the band. |
| Wrap.CalcAxisStaysBelow | src/pixiJsSketch.ts:430-434 | A tile left at -440 stays at -440 on a frame with delta 720, still below the band. |
| Sketch.Init | src/pixiJsSketch.ts:174-211 | After placement there is one tile per image, tile `i` at its grid cell `TileOrigin(i)`, each inside the first wrap period, at pairwise distinct positions. Nothing is moving, bulging or dragging, and no slug or pointer is recorded. |
| Sketch.StartDrag | src/pixiJsSketch.ts:334-350 | A press starts a drag and records its time stamp and position: the mouse position, the first target touch, or undefined coordinates when there is no touch. Nothing else changes. |
| Sketch.EndDrag | src/pixiJsSketch.ts:352-385 | A release always ends the drag. Without a truthy press time and position nothing else changes. Otherwise the remembered slug is cleared. The callback fires exactly when the gesture is a click while a non-empty slug is remembered, and it receives that slug. The remembered slug is that of the latest tile press not yet consumed by a release with a truthy press record, which need not be this gesture's press. A click gesture is under 200 ms, with a known release point within one pixel on each axis. |
| Sketch.Scroll | src/pixiJsSketch.ts:387-391 | A wheel turn cancels the drag and sets a velocity whose sevenfold equals the wheel delta. Nothing else changes. |
| Sketch.Drag | src/pixiJsSketch.ts:393-418 | The tracked position follows the mouse or a single finger, and is kept for other touch counts. The velocity changes only when a drag is on and both positions are truthy. It then becomes minus one seventh of the displacement since the press. Nothing else changes. |
| Sketch.PressTile | src/pixiJsSketch.ts:215-217 | Pressing tile `i` remembers image `i`'s slug and changes nothing else. |
| Sketch.PressAndReleaseIsClick | src/pixiJsSketch.ts:352-385 | A tile press released by mouse 150 ms later, one pixel away, reports that tile's slug. |
| Sketch.PressAndMoveIsNoClick | src/pixiJsSketch.ts:375-382 | A press released 50 pixels away reports nothing. |
| Sketch.PressAtTimeZeroIsIgnored | src/pixiJsSketch.ts:354-359 | A press at time stamp 0 makes the release report nothing and keep the remembered slug. |
| Ticker.BulgeStep | src/pixiJsSketch.ts:224-239 | From a reachable level, the strength moves one 0.025 step toward 0.2 while bulging and toward 0 otherwise. It is clamped at both ends and stays on a reachable level. |
| Ticker.Tick | src/pixiJsSketch.ts:221-286 | Each frame the strength takes one bulge step in the direction of the flag as it stood at the frame's start, and stays on a reachable level. The shadow follows that same flag. With no velocity only those two change. A velocity under 1 on both axes snaps to zero, clears the flag and leaves the tiles alone. Any other velocity sets the flag, decays by 0.9, and re-wraps every tile by the decayed velocity. The input fields never change. |
| Ticker.TickKeepsRelativeLayout | src/pixiJsSketch.ts:267-278 | Across a frame the offset between any two tiles is kept up to whole periods on each axis, so the wall stays seamless. |
| Ticker.TickKeepsTilesInBand | src/pixiJsSketch.ts:267-278 | Tiles in the band stay in the band through a frame whose decayed velocity is below one period. The starting layout does not meet this yet: the last column starts on the band's excluded upper edge. Tiles enter the band on the first frame whose shifted sums are non-negative. |
| Ticker.IdleFramesDrainBulge | src/pixiJsSketch.ts:231-241 | At rest and not bulging, `n` frames lower the strength by `n` steps, floored at 0. Nothing else that moves changes. |
| Ticker.BulgeRamp | src/pixiJsSketch.ts:224-227 | From 0, continuous bulging climbs one step a frame. It reaches 0.2 at the eighth frame, not earlier, and stays there. |
| Ticker.BulgingFramesRamp | src/pixiJsSketch.ts:224-227 | While every frame starts bulging, the strength after `n` frames follows the bulging ramp. From 0 it is `n` steps, reaching 0.2 on the eighth frame and staying there. |
| Ticker.StuckBulge | src/pixiJsSketch.ts:224-242 | With the flag set and no velocity, any number of frames keeps the flag, the zero velocity and the tiles. The shadow is on after the first frame, and the strength follows the bulging ramp. |
| Ticker.DragBackLeavesBulgeOn | src/pixiJsSketch.ts:413-417 | A bulging drag moved back to its press point gets velocity zero. Twenty frames after the release the flag and shadow are on, the strength is 0.2, and no tile has moved. |
| Ticker.ZeroWheelLeavesBulgeOn | src/pixiJsSketch.ts:387-391 | A wheel turn with zero deltas during a bulge gives the same stuck bulge: twenty frames later the flag and shadow are on at strength 0.2 and no tile has moved. |
| Ticker.FramesToRest | src/pixiJsSketch.ts:241-268 | The number of frames until a velocity snaps to rest is at most ten times its larger component plus one. |
| Ticker.ComesToRest | src/pixiJsSketch.ts:241-268 | From any velocity the wall is exactly at rest after `FramesToRest` frames. |
| Session.Dispatch | src/pixiJsSketch.ts:154-160 | Only a release can report a click. Only a frame moves the tiles or changes the bulge strength. A press on a tile index with no image changes nothing. A press on tile `i` remembers image `i`'s slug. |
| Session.DispatchKeepsRelativeLayout | src/pixiJsSketch.ts:154-160 | Any one event or frame keeps the tile count and keeps the offset between any two tiles up to whole wrap periods on each axis. |
| Session.RunKeepsRelativeLayout | src/pixiJsSketch.ts:267-278 | Over any sequence of events and frames, the tile count is kept and the offset between any two tiles changes only by whole wrap periods, so the wall stays seamless. |
| Session.LeftoverSlugIsReported | src/pixiJsSketch.ts:352-385 | Pressing tile `i`, then a press whose release never arrives, then a mouse click elsewhere reports image `i`'s slug. |
| Session.InitConsistent | src/pixiJsSketch.ts:69-98 | The state after placement is consistent. Consistent means one tile per image, a reachable bulge level, and any remembered slug belongs to an image. |
| Session.DispatchConsistent | src/pixiJsSketch.ts:154-160 | Every listener event, tile press and frame keeps the state consistent. A reported click is the non-empty slug of an image on the wall. |
| Session.RunConsistent | src/pixiJsSketch.ts:154-160 | Over any sequence of events and frames the state stays consistent and the strength stays in [0, 0.2]. Every reported click is the non-empty slug of an image on the wall. |
| Cover.Ratio | src/utility.ts:68-76 | With cover, the scaled target reaches the container on both axes; without it, it fits inside on both axes. In both cases it meets the container exactly on one axis. |
| Cover.Calculate | src/utility.ts:58-85 | The placement is the target scaled uniformly by the chosen ratio. With cover, it reaches the container on both axes; without cover, it fits inside on both axes. In both cases it meets the container exactly on one axis. |
| Cover.FitCover | src/utility.ts:54-56 | The covering image keeps the container, is scaled uniformly, overflows or meets the container on both axes, and meets it exactly on one. |
| Cover.FitCoverOffsets | src/utility.ts:79-80 | The covering image's left and top offsets are never positive while the overflow fits in 32 bits. |
| Cover.ContainFits | src/utility.ts:58-85 | Without cover, the image fits inside the container and touches it on one axis. Its offsets are never negative while the leftover room fits in 32 bits. |
| Cover.CalculateKeepsAspect | src/utility.ts:81-82 | The drawn image keeps the target's aspect ratio. |
| Cover.CoverScaleIsLeast | src/utility.ts:72-73 | The cover scale is the larger of the two axis ratios, and no smaller scale covers the container on both axes. |
| Transform.Get | src/utility.ts:97-107 | Reading a property throws exactly when the value is null or undefined. |
| Transform.TransformEdge | src/utility.ts:103-115 | The loop body throws exactly when the edge, its node, or the node's `imageUrl` is null or undefined. Otherwise it copies the node's id and slug, keeps a non-empty string URL, and substitutes the placeholder for an empty one. |
| Transform.TransformEdgeOfNode | src/utility.ts:102-115 | An edge carrying a node with string `id`, `slug` and `imageUrl` becomes the descriptor with the same id and slug. It gets the placeholder URL exactly when the URL is empty. |
| Transform.ResponseEntries | src/utility.ts:102-118 | A loop that ran over all edges of a well-formed response built the intended descriptors, in order. |
| Transform.ThrowingEdgeRulesOutResponse | src/utility.ts:103-109 | An edge on which the loop body throws means the response is not well formed. |
| Transform.TransformData | src/utility.ts:88-121 | A falsy argument gives undefined; any other gives a list. A well-formed response gives one intended descriptor per edge, in order. A missing `allCollections` gives an empty list, and so does an `edges` chain that throws or is not an array. An edge that throws gives an empty list, with nothing kept from earlier edges. When no edge throws, the list has one entry per edge, each what the loop body makes of that edge, whatever the node's field types. |

## Left out

- Rendering: the PIXI application, its containers, sprites and masks, the bulge filter object and the CSS class on the wrapper element. Only the numbers they hold (tile positions, filter strength, shadow flag) are modelled.
- `loadImages`: asynchronous image loading. It hands over the images in completion order, not request order; the model takes the loaded list as given.
- `debounce` and `main.ts`: timers and page wiring.
- `_detectBoundry`: its only call site is commented out.
- Mouse over and out on tiles: gsap animations only.
- Adding and removing the document listeners, and `destroy`: these wire handlers to the document and add no state logic. `Session.Dispatch` stands for the wiring.
- Floating-point rounding, NaN and infinities. Reals are exact. In IEEE doubles eight steps of 0.025 give 0.19999999999999998, which is below 0.2. So a ninth bulging frame raises the strength to 0.22499999999999998, and draining from there takes ten frames and ends at -0.024999999999999994. The [0, 0.2] bound (`Session.RunConsistent`) and the eighth-frame ramp (`Ticker.BulgeRamp`, `Ticker.BulgingFramesRamp`) hold only in exact arithmetic.
- A wall with no images. `numRows` is then 0 and the column count is NaN; `Grid.MakeLayout` requires at least one tile.
- A cell pitch or wrap period that is zero or negative. `_calcPos` would then divide by zero or wrap the wrong way; the wrap functions require a positive period. `Dimensions.PitchPositiveIff` says which viewports give one.
- Cover.Calculate: requires positive target sides. The source divides by them, and a zero side gives an infinite or NaN ratio.
- Transform.TransformData: an `edges` value that is not an array but whose `length` converts to a positive number (an array-like object, or an object whose `length` is a numeric string or `true`) yields an empty list in the model; the source iterates over its index keys and can produce entries. Every other non-array value yields an empty list in the source too.
- Ticker.FramesToRest: gives an upper bound on the frames to rest, not the exact frame count for a particular velocity.
