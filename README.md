# Invisibility cloak (hp.py) in Dafny

This project models `hp.py`, a webcam "invisibility cloak" script. The script
captures a static background. It then replaces, frame by frame, every pixel
whose HSV colour lies in a blue range with the matching background pixel. The
model covers the parts of the script that are logic rather than plumbing:

- `capture_background`. A fixed number of camera reads. Failed reads are
  skipped. The last good frame wins, mirrored when `flip` is set.
- Bound selection. The default HSV range, or the six trackbars of the
  calibration window: how they are seeded, their limits, how they are read back.
- `cv2.inRange`: the raw mask.
- Mask cleanup. A 3x3 opening with `iterations=2`, then one 3x3 dilation.
- Compositing. `bitwise_not`, the two masked `bitwise_and` calls and
  `addWeighted(keep, 1, cloak, 1, 0)`.
- `main`. The startup gating, the frame loop, and the key dispatch on `q`,
  `b` and `c`.

Modules, one per file:

- `Wrappers`: `Option`, `Result`.
- `Image`: bytes, pixels, frames, masks, `cv2.flip`.
- `Calibration`: defaults, trackbars, bound selection.
- `Segment`: `inRange`.
- `Morphology`: erosion, dilation, opening, cleanup.
- `Composite`: compositing and the whole per-frame pipeline.
- `Capture`: the camera, `capture_background`.
- `Session`: the loop state, key dispatch, the loop, `main`.

Images are grids, `seq<seq<_>>`, of 8-bit values. The camera is a `Camera`
object holding a finite feed of read results. `capture_background` and the
frame loop are methods with loops over that object:

- `capture_background` is proved against the function `LastGood`.
- Each pass of the frame loop is recorded as a tick. A tick holds the
  number of the read it came from, the mirrored frame, the state it ran
  in and its key.
- The loop is proved to keep a trace (`Session.Trace`) of these ticks:
  - Each tick's frame is that read, mirrored.
  - The next tick reads the next frame, or the one after the 40 reads of a
    re-capture on `b`.
  - The next tick's state is what `Dispatch` makes of the trackbar drags
    and the key.
  - Every frame shown is the `CloakFrame` output for its tick.
- The loop ends at the first failed read, on `q`, or when compositing raises.

Two behaviours of the code are worth spelling out:

- hp.py:98 assigns the re-capture result without a `None` check. After a
  re-capture in which every read failed, the background is `None`, and the
  next frame's `bitwise_and` raises (`Crashed(NoBackground)`); see
  `Session.FailedRecaptureLosesBackground`.
- `cap.release()` is called explicitly only at hp.py:111, after the loop has
  ended by `q` or by a failed read. `Camera.released` records that call.
  The model does not track the implicit release when the `VideoCapture`
  object is destroyed after an early return.

## Model

| member | source | states |
|---|---|---|
| Image.Mirror | hp.py:35 | `cv2.flip(frame, 1)` keeps the frame's shape |
| Image.MirrorAt | hp.py:35 | pixel j of a mirrored row is pixel width-1-j of the original row |
| Image.MirrorInvolution | hp.py:35 | mirroring twice gives back the original frame |
| Image.Convert | hp.py:59 | the HSV image has the frame's shape, with each pixel converted on its own |
| Calibration.CreateCalibWindow | hp.py:10-18 | the six trackbars are seeded from LOWER and UPPER and lie within their ranges (hue 0..179, others 0..255) |
| Calibration.Clamp | hp.py:18 | a trackbar position always lands in 0..max; a position already in range is kept |
| Calibration.Slide | hp.py:18 | dragging one trackbar sets only that one, clamped to its range; the others keep their positions; limits are preserved |
| Calibration.SlideAll | hp.py:18 | any sequence of drags keeps every trackbar within its limits |
| Calibration.ReadCalibBounds | hp.py:20-27 | lower = (LH, LS, LV) and upper = (UH, US, UV); within limits, each component lies within its channel range |
| Calibration.FreshWindowReadsDefaults | hp.py:7-27 | a freshly created window reads back exactly (LOWER, UPPER) |
| Calibration.SelectBounds | hp.py:62-65 | the defaults when calibration is off, the trackbars when it is on |
| Segment.InRange | hp.py:68 | the mask has the image's shape; every pixel is 0 or 255, and it is 255 iff all three channels lie within their inclusive bounds |
| Segment.WideningKeepsPixels | hp.py:68 | widening the bounds never removes a pixel from the mask |
| Segment.CrossedBoundsEmpty | hp.py:68 | a channel whose lower bound exceeds its upper bound gives an all-zero mask |
| Morphology.MinOf | hp.py:71-72 | the erosion value occurs in the neighbourhood and is at most every neighbour |
| Morphology.MaxOf | hp.py:71-73 | the dilation value occurs in the neighbourhood and is at least every neighbour |
| Morphology.Erode | hp.py:72 | one erosion keeps the mask's shape |
| Morphology.Dilate | hp.py:72-73 | one dilation keeps the mask's shape |
| Morphology.Open | hp.py:72 | MORPH_OPEN with iterations=2 (two erosions, then two dilations) keeps the shape |
| Morphology.Refine | hp.py:72-73 | the opening followed by one dilation keeps the shape |
| Morphology.ErodeShrinks | hp.py:72 | erosion never raises a pixel |
| Morphology.DilateGrows | hp.py:73 | dilation never lowers a pixel |
| Morphology.MaxOfMonotone | hp.py:72-73 | a pointwise larger neighbourhood has a larger maximum |
| Morphology.MinOfMonotone | hp.py:72 | a pointwise larger neighbourhood has a larger minimum |
| Morphology.DilateMonotone | hp.py:72-73 | dilation is monotone in the mask |
| Morphology.ErodeMonotone | hp.py:72 | erosion is monotone in the mask |
| Morphology.OffsetIndex | hp.py:71 | offset (di, dj) sits at index 3di+dj+4 of the kernel |
| Morphology.ErodeBelowNeighbour | hp.py:72 | the erosion at any neighbour of p is at most the mask at p |
| Morphology.MaxOfAtMost | hp.py:72-73 | a bound on every neighbour bounds the dilation value |
| Morphology.DilateErodeAtBelow | hp.py:72 | dilating an erosion gives at most the original value at each pixel |
| Morphology.DilateErodeShrinks | hp.py:72 | dilation after erosion never sets a pixel that was clear |
| Morphology.OpenShrinks | hp.py:72 | the opening with iterations=2 never sets a pixel that was 0 in the raw mask |
| Morphology.RefineGrowsOpening | hp.py:73 | the final dilation never clears a pixel the opening kept |
| Morphology.RefineWithinDilatedRaw | hp.py:71-73 | every pixel set after cleanup lies within one pixel of a pixel set in the raw mask |
| Morphology.RefineMonotone | hp.py:71-73 | a larger raw mask never gives a smaller cleaned mask |
| Morphology.NeighbourhoodBinary | hp.py:71-73 | on a binary mask every neighbour value, border included, is 0 or 255 |
| Morphology.ErodeBinary | hp.py:72 | erosion keeps a mask binary |
| Morphology.DilateBinary | hp.py:72-73 | dilation keeps a mask binary |
| Morphology.RefineBinary | hp.py:71-73 | cleanup keeps the mask binary |
| Morphology.DilateAtEmpty | hp.py:73 | with nothing set, the dilation at any position is 0 |
| Morphology.DilateEmpty | hp.py:73 | dilating an all-zero mask gives an all-zero mask |
| Morphology.RefineEmpty | hp.py:71-73 | an all-zero raw mask stays all-zero after cleanup |
| Morphology.ErodeAtSolid | hp.py:72 | erosion keeps a pixel whose whole 3x3 neighbourhood is set |
| Morphology.ErodeSolid | hp.py:72 | one erosion shrinks a set 5x5 block to a set 3x3 block around the same centre |
| Morphology.SolidBlockSurvives | hp.py:71-73 | a pixel whose whole 5x5 block is set stays set after the opening and after the final dilation |
| Composite.Invert | hp.py:75 | bitwise_not: each inverted value plus the mask value is 255 |
| Composite.MaskedCopy | hp.py:78-80 | the masked bitwise_and gives the pixel where the mask is nonzero and black elsewhere |
| Composite.Keep | hp.py:75-78 | keep is the frame pixel wherever the mask is not 255 and black where it is 255 |
| Composite.Cloak | hp.py:80 | cloak is the background pixel wherever the mask is nonzero and black elsewhere |
| Composite.SaturatedAdd | hp.py:82 | the 8-bit sum is exact when it fits and 255 otherwise |
| Composite.AddWeighted | hp.py:82 | addWeighted with unit weights keeps the shape |
| Composite.Compose | hp.py:75-82 | the composite keeps the frame's shape |
| Composite.PartsDisjoint | hp.py:75-82 | with a binary mask, keep and cloak are never both non-black at one pixel, so no channel sum exceeds 255 |
| Composite.ComposeSelects | hp.py:75-82 | the output pixel is the background pixel where the mask is 255 and the frame pixel where it is 0 |
| Composite.ComposeEmptyMask | hp.py:75-82 | an all-zero mask gives back the frame |
| Composite.ComposeChecked | hp.py:75-82 | a None background, or one whose shape differs from the frame, makes bitwise_and raise; otherwise the composite is produced |
| Composite.RawMask | hp.py:59-68 | the raw mask has the frame's shape |
| Composite.CloakFrame | hp.py:59-82 | one pass of the pipeline raises NoBackground without a background and SizeMismatch when the background's shape differs; otherwise it produces an output of the frame's shape |
| Composite.CloakFrameSelects | hp.py:59-82 | with a background of the frame's shape, the output selects exactly by the cleaned (binary) mask, and a pixel changes only within one pixel of an in-range pixel |
| Composite.NothingInRangeKeepsFrame | hp.py:59-82 | when no pixel is in range, the raw and cleaned masks are all zero and the output equals the frame |
| Composite.SolidBlockShowsBackground | hp.py:59-82 | where the raw mask is set on a whole 5x5 block, the output pixel is the background pixel |
| Capture.Camera.constructor | hp.py:40 | a new camera has made no reads and is not released |
| Capture.Camera.Read | hp.py:33 | each read consumes one result of the feed; a read past its end fails |
| Capture.Camera.Release | hp.py:111 | the camera is released |
| Capture.LastGood | hp.py:29-37 | the capture result, when there is one, is the oriented frame of one of the successful reads |
| Capture.LastGoodNoneIff | hp.py:29-37 | the capture returns None iff every read failed |
| Capture.LastGoodIsLast | hp.py:29-37 | a successful capture is the oriented frame of a successful read after which every read failed |
| Capture.LastSuccessIsLastGood | hp.py:29-37 | conversely, the oriented last successful read is what the capture returns |
| Capture.LastGoodSnoc | hp.py:32-36 | one more read: a success replaces the result, a failure is skipped |
| Capture.CaptureBackground | hp.py:29-37 | exactly numFrames reads, none retried; the result is the last good frame, mirrored when flip is set, or None |
| Session.KeyCode | hp.py:94 | `waitKey(1) & 0xFF` is the low byte of the key, for any sign |
| Session.Initial | hp.py:47-52 | the loop starts with calibration off and the startup background |
| Session.Adjust | hp.py:94 | trackbar drags during the key wait change only the trackbars and keep them within limits |
| Session.Step | hp.py:94-109 | the state after one pass's drags and key stays consistent, and the loop goes on exactly when it was running and the key is not q |
| Session.Dispatch | hp.py:94-109 | q stops and changes nothing else; b assigns the capture result, None included; c toggles calibration and creates or drops the trackbars; any other key changes nothing; consistency is kept |
| Session.QuitStops | hp.py:94-95 | q stops the loop in either calibration state, for every raw key whose low byte is q |
| Session.ToggleTwice | hp.py:99-109 | two presses of c restore the calibration flag, and the whole state when it was off |
| Session.ToggleGivesDefaults | hp.py:99-103 | right after c the bounds are the defaults, switching either way |
| Session.FailedRecaptureLosesBackground | hp.py:96-98 | a failed re-capture leaves no background, and the next frame's compositing raises |
| Session.ShowFrame | hp.py:59-88 | the pipeline's output for the tick is shown, or the fault it raises is reported; either way the tick extends the trace |
| Session.HandleKey | hp.py:94-109 | the new state is Dispatch applied to the state after the drags, with the key's low byte; on b, exactly 40 more reads are made and their capture result, None included, is passed on; otherwise no read is made |
| Session.TraceExtend | hp.py:54-109 | a tick that reads where the previous tick led, in the state that tick led to, extends the trace |
| Session.Pass | hp.py:54-109 | one pass either ends the loop (failed read, fault, q), or extends the trace and leaves the loop in the state and read position the tick leads to |
| Session.FrameLoop | hp.py:54-109 | the first pass reads the next frame. Each pass shows the mirrored frame of its read through the pipeline. The next pass reads the following frame, or the one after a re-capture, in the state Dispatch gives. The loop ends by q, by a fault, or exactly at the first failed read |
| Session.Run | hp.py:39-112 | main returns before the loop exactly when the camera did not open or no startup read succeeded. Otherwise the loop starts right after the 40 startup reads, from the startup background, and keeps the trace. Reads made: none when the camera did not open, exactly the 40 startup reads when the startup capture failed, up to and including the last pass's read on q or a crash, and up to the failed read on a stream end. cap.release() is called exactly when the loop ends by q or by a failed read |

## Left out

- `time.sleep(1)` before a capture (hp.py:30): timing only; it changes no value.
- `cv2.cvtColor` (hp.py:59): OpenCV's BGR to HSV arithmetic is not modelled. The conversion is a per-pixel function `conv` passed in as a parameter.
- Window management. This covers `namedWindow`, `resizeWindow`, `createTrackbar` (with its no-op callback), `imshow` of the mask (hp.py:92), `destroyWindow` with its swallowed exception (hp.py:106-109) and `destroyAllWindows` (hp.py:112). These are display effects. The trackbar window is represented only by its six positions, which exist exactly while calibration is on.
- `cv2.waitKey` and operator drags: the raw key of each pass and the drags made during its wait are inputs (`keys`, `moves`). A pass with no given key gets `NO_KEY`.
- `cv2.putText` (hp.py:85-86): font rasterisation. The shown frames are the composites before the overlay.
- `print` messages: they change no state.
- The camera device: it is a finite sequence of read results, and every read after its end fails.
- OpenCV's erosion and dilation borders: out-of-image neighbours are neutral (255 for erosion, 0 for dilation). `iterations=2` is modelled as two 3x3 passes of each. OpenCV runs it as one pass with a 5x5 kernel; the two agree on rectangular images with neutral borders. Grids are not required to be rectangular here, so for ragged rows the model's result is the two-pass one.
- OpenCV errors other than a missing background or a background of a different size (for example a type mismatch): the model's frames are all 8-bit, three-channel images.
- Timing of the loop: the model records which frames were shown and in what state each pass ran (a ghost log of ticks), not how long each pass takes.
