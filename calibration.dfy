/**
 * The HSV colour range the cloak is keyed on: the fixed defaults, the
 * calibration window's six trackbars, and the choice between them.
 */
module Calibration {
  import opened Wrappers

  /** A lower or upper bound of the range: hue, saturation, value. */
  datatype Bound = Bound(h: int, s: int, v: int)

  /** Default bounds, tuned for a light or mid blue towel. */
  const LOWER: Bound := Bound(85, 50, 50)
  const UPPER: Bound := Bound(130, 255, 255)

  /** Largest trackbar position: OpenCV's 8-bit hue runs 0..179, saturation and value 0..255. */
  const HUE_MAX := 179
  const CHANNEL_MAX := 255

  datatype SliderName = LH | UH | LS | US | LV | UV

  /** The trackbar positions of the "Calibrate HSV" window. */
  datatype Sliders = Sliders(lh: int, uh: int, ls: int, us: int, lv: int, uv: int)

  /** One operator adjustment: drag the named trackbar towards a position. */
  datatype Move = Move(name: SliderName, target: int)

  function MaxPos(name: SliderName): int {
    if name == LH || name == UH then HUE_MAX else CHANNEL_MAX
  }

  function Pos(w: Sliders, name: SliderName): int {
    match name
    case LH => w.lh
    case UH => w.uh
    case LS => w.ls
    case US => w.us
    case LV => w.lv
    case UV => w.uv
  }

  /** Every trackbar sits inside its range 0..MaxPos. */
  predicate InLimits(w: Sliders) {
    forall name: SliderName :: 0 <= Pos(w, name) <= MaxPos(name)
  }

  /** The window as create_calib_window builds it: each trackbar seeded from the defaults. */
  function CreateCalibWindow(): (w: Sliders)
    ensures InLimits(w)
    ensures Pos(w, LH) == LOWER.h && Pos(w, LS) == LOWER.s && Pos(w, LV) == LOWER.v
    ensures Pos(w, UH) == UPPER.h && Pos(w, US) == UPPER.s && Pos(w, UV) == UPPER.v
  {
    Sliders(LOWER.h, UPPER.h, LOWER.s, UPPER.s, LOWER.v, UPPER.v)
  }

  /** A trackbar cannot leave its range: a drag lands on the nearest position in 0..max. */
  function Clamp(x: int, max: int): (r: int)
    requires 0 <= max
    ensures 0 <= r <= max
    ensures 0 <= x <= max ==> r == x
    ensures x < 0 ==> r == 0
    ensures max < x ==> r == max
  {
    if x < 0 then 0 else if max < x then max else x
  }

  /** The operator drags one trackbar; only that trackbar changes. */
  function Slide(w: Sliders, m: Move): (r: Sliders)
    ensures Pos(r, m.name) == Clamp(m.target, MaxPos(m.name))
    ensures forall other: SliderName :: other != m.name ==> Pos(r, other) == Pos(w, other)
    ensures InLimits(w) ==> InLimits(r)
  {
    var p := Clamp(m.target, MaxPos(m.name));
    match m.name
    case LH => w.(lh := p)
    case UH => w.(uh := p)
    case LS => w.(ls := p)
    case US => w.(us := p)
    case LV => w.(lv := p)
    case UV => w.(uv := p)
  }

  /** The operator's adjustments during one key poll, applied in order. */
  function SlideAll(w: Sliders, moves: seq<Move>): (r: Sliders)
    ensures InLimits(w) ==> InLimits(r)
    decreases moves
  {
    if moves == [] then w else SlideAll(Slide(w, moves[0]), moves[1..])
  }

  /** read_calib_bounds: lower = (LH, LS, LV), upper = (UH, US, UV). */
  function ReadCalibBounds(w: Sliders): (r: (Bound, Bound))
    ensures r.0 == Bound(Pos(w, LH), Pos(w, LS), Pos(w, LV))
    ensures r.1 == Bound(Pos(w, UH), Pos(w, US), Pos(w, UV))
    ensures InLimits(w) ==>
      0 <= r.0.h <= HUE_MAX && 0 <= r.1.h <= HUE_MAX &&
      0 <= r.0.s <= CHANNEL_MAX && 0 <= r.1.s <= CHANNEL_MAX &&
      0 <= r.0.v <= CHANNEL_MAX && 0 <= r.1.v <= CHANNEL_MAX
  {
    (Bound(w.lh, w.ls, w.lv), Bound(w.uh, w.us, w.uv))
  }

  /** A freshly created window reads back exactly the default bounds. */
  lemma FreshWindowReadsDefaults()
    ensures ReadCalibBounds(CreateCalibWindow()) == (LOWER, UPPER)
  {
  }

  /**
   * The bounds used for one frame: the trackbars when calibration is on,
   * the defaults otherwise.
   */
  function SelectBounds(calib: bool, window: Option<Sliders>): (r: (Bound, Bound))
    requires calib ==> window.Some?
    ensures !calib ==> r == (LOWER, UPPER)
    ensures calib ==> r == ReadCalibBounds(window.value)
  {
    if calib then ReadCalibBounds(window.value) else (LOWER, UPPER)
  }
}
