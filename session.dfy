/**
 * main(): the startup gating and the frame loop with its key dispatch.
 * The loop's state is the calibration flag with its window, the
 * background, and whether the loop goes on.
 */
module Session {
  import opened Wrappers
  import opened Image
  import opened Calibration
  import opened Composite
  import opened Capture

  /** Reads per background capture, at startup and on 'b'. */
  const CAPTURE_FRAMES: nat := 40
  /** Frames are mirrored before use. */
  const FLIP := true

  const KEY_QUIT := 113        // ord('q')
  const KEY_BACKGROUND := 98   // ord('b')
  const KEY_CALIBRATE := 99    // ord('c')
  /** What waitKey returns when no key was pressed within its wait. */
  const NO_KEY := -1

  /** waitKey(1) & 0xFF: the low byte of the key code, as Python's & gives it for any sign. */
  function KeyCode(raw: int): (k: int)
    ensures 0 <= k < 256
    ensures (raw - k) % 256 == 0
  {
    raw % 256
  }

  datatype State = State(calib: bool, window: Option<Sliders>, background: Option<Frame>, running: bool)

  /** The calibration window exists exactly while calibration is on, with every trackbar in range. */
  predicate Consistent(st: State) {
    (st.calib <==> st.window.Some?) && (st.window.Some? ==> InLimits(st.window.value))
  }

  /** The state in which the loop is entered: calibration off, the startup background. */
  function Initial(background: Frame): (st: State)
    ensures Consistent(st) && st.running && !st.calib && st.background == Some(background)
  {
    State(false, None, Some(background), true)
  }

  /** Trackbar drags made while waitKey runs; without a window there is nothing to drag. */
  function Adjust(st: State, moves: seq<Move>): (r: State)
    ensures r.calib == st.calib && r.background == st.background && r.running == st.running
    ensures r.window.Some? <==> st.window.Some?
    ensures Consistent(st) ==> Consistent(r)
  {
    if st.window.Some? then st.(window := Some(SlideAll(st.window.value, moves))) else st
  }

  /**
   * The key dispatch of hp.py:95-109 for key code key. recaptured is what
   * capture_background returned when key is 'b'; it is assigned as it is,
   * None included.
   */
  function Dispatch(st: State, key: int, recaptured: Option<Frame>): (r: State)
    ensures Consistent(st) ==> Consistent(r)
    ensures key == KEY_QUIT ==> r == st.(running := false)
    ensures key != KEY_QUIT ==> r.running == st.running
    ensures key == KEY_BACKGROUND ==> r.background == recaptured && r.calib == st.calib && r.window == st.window
    ensures key == KEY_CALIBRATE ==>
      r.calib == !st.calib && r.background == st.background &&
      r.window == (if r.calib then Some(CreateCalibWindow()) else None)
    ensures key != KEY_QUIT && key != KEY_BACKGROUND && key != KEY_CALIBRATE ==> r == st
  {
    if key == KEY_QUIT then st.(running := false)
    else if key == KEY_BACKGROUND then st.(background := recaptured)
    else if key == KEY_CALIBRATE then
      if !st.calib then st.(calib := true, window := Some(CreateCalibWindow()))
      else st.(calib := false, window := None)
    else st
  }

  /** 'q' ends the loop whether or not calibration is on, whatever bits waitKey sets above the low byte. */
  lemma QuitStops(st: State, n: int, recaptured: Option<Frame>)
    ensures !Dispatch(st, KeyCode(KEY_QUIT + 256 * n), recaptured).running
  {
    assert KeyCode(KEY_QUIT + 256 * n) == KEY_QUIT;
  }

  /** Two presses of 'c' restore the flag; from "off", they restore the whole state. */
  lemma ToggleTwice(st: State, x: Option<Frame>, y: Option<Frame>)
    requires Consistent(st)
    ensures var twice := Dispatch(Dispatch(st, KEY_CALIBRATE, x), KEY_CALIBRATE, y);
      twice.calib == st.calib && twice.background == st.background && twice.running == st.running &&
      (!st.calib ==> twice == st)
  {
  }

  /**
   * After 'c' the bounds are the defaults either way: switching off drops the
   * trackbars, switching on seeds them with the defaults.
   */
  lemma ToggleGivesDefaults(st: State, x: Option<Frame>)
    requires Consistent(st)
    ensures var r := Dispatch(st, KEY_CALIBRATE, x); SelectBounds(r.calib, r.window) == (LOWER, UPPER)
  {
    FreshWindowReadsDefaults();
  }

  /**
   * As written, a failed re-capture leaves no background, and the next frame
   * that is read makes bitwise_and raise instead of producing an output.
   */
  lemma FailedRecaptureLosesBackground(st: State, frame: Frame, conv: Pixel -> Pixel)
    requires Consistent(st)
    ensures var next := Dispatch(st, KEY_BACKGROUND, None);
      next.background == None && next.running == st.running &&
      CloakFrame(frame, conv, next.background, SelectBounds(next.calib, next.window)) == Err(NoBackground)
  {
  }

  /** How main ends. */
  datatype Exit =
    | CameraNotFound   // returns before the loop: the camera did not open
    | CaptureFailed    // returns before the loop: no startup read succeeded
    | StreamEnded      // a read inside the loop failed
    | Quit             // 'q' was pressed
    | Crashed(fault: Fault)  // OpenCV raised while compositing

  /**
   * One pass of the loop that got a frame: the number of the read it came
   * from, the frame after mirroring, the state it ran in, the raw key.
   */
  datatype Tick = Tick(pos: nat, frame: Frame, state: State, key: int)

  /**
   * What the loop is given from outside: the camera's read results, what
   * waitKey returns in each pass, the trackbar drags made during each wait,
   * and the BGR to HSV conversion of one pixel.
   */
  datatype Env = Env(feed: seq<Option<Frame>>, keys: seq<int>, moves: seq<seq<Move>>, conv: Pixel -> Pixel)

  /** The key of pass t; once the given keys run out, no key is pressed. */
  function KeyAt(keys: seq<int>, t: nat): int {
    if t < |keys| then keys[t] else NO_KEY
  }

  function MovesAt(moves: seq<seq<Move>>, t: nat): seq<Move> {
    if t < |moves| then moves[t] else []
  }

  /** Reads the camera can still serve before its feed ends. */
  function Remaining(cap: Camera): nat
    reads cap
  {
    if cap.attempts <= |cap.feed| then |cap.feed| - cap.attempts else 0
  }

  /** What capture_background(cap, 40, flip) returns when its reads start at read number pos. */
  function Captured(feed: seq<Option<Frame>>, pos: nat): Option<Frame> {
    LastGood(Reads(feed, pos, CAPTURE_FRAMES), FLIP)
  }

  /** What the key of a pass makes the loop capture from read number pos on: nothing unless 'b'. */
  function Recapture(feed: seq<Option<Frame>>, pos: nat, key: int): Option<Frame> {
    if KeyCode(key) == KEY_BACKGROUND then Captured(feed, pos) else None
  }

  /** The read number after the key of a pass is handled, from read number pos on. */
  function AfterKey(pos: nat, key: int): nat {
    if KeyCode(key) == KEY_BACKGROUND then pos + CAPTURE_FRAMES else pos
  }

  /** The state one pass leaves: its drags, then its key; recaptured is what 'b' captured. */
  function Step(st: State, key: int, moves: seq<Move>, recaptured: Option<Frame>): (r: State)
    ensures Consistent(st) ==> Consistent(r)
    ensures r.running == (st.running && KeyCode(key) != KEY_QUIT)
  {
    Dispatch(Adjust(st, moves), KeyCode(key), recaptured)
  }

  /**
   * Tick a is pass t: its frame is read number a.pos of the feed, which
   * succeeded, mirrored; its key is the t-th; it ran in a consistent state.
   */
  ghost predicate TickOk(a: Tick, env: Env, t: nat) {
    && Consistent(a.state) && a.state.running && a.key == KeyAt(env.keys, t)
    && FeedAt(env.feed, a.pos).Some? && a.frame == Orient(FeedAt(env.feed, a.pos).value, FLIP)
  }

  /**
   * After pass t, tick a, the loop reads next at read number pos in state
   * next: pos is the read after a's, or after the 40 reads of a re-capture
   * on 'b', and next is what a's drags and key make of a's state.
   */
  ghost predicate Follows(a: Tick, env: Env, t: nat, next: State, pos: nat) {
    && pos == AfterKey(a.pos + 1, a.key)
    && next == Step(a.state, a.key, MovesAt(env.moves, t), Recapture(env.feed, a.pos + 1, a.key))
  }

  /** Tick a ran the pipeline of hp.py:59-82 and produced out. */
  ghost predicate Shows(a: Tick, env: Env, out: Frame) {
    && Consistent(a.state)
    && CloakFrame(a.frame, env.conv, a.state.background, SelectBounds(a.state.calib, a.state.window)) == Ok(out)
  }

  /** Tick a raised fault while compositing. */
  ghost predicate Raises(a: Tick, env: Env, fault: Fault) {
    && Consistent(a.state)
    && CloakFrame(a.frame, env.conv, a.state.background, SelectBounds(a.state.calib, a.state.window)) == Err(fault)
  }

  /**
   * What a run of the loop entered in st0 at read number start has done so
   * far: the first tick read at start in st0, every tick is its pass, each
   * one led to the next one's read and state, and every tick but possibly
   * a last, crashing one showed the pipeline's output.
   */
  ghost predicate Trace(log: seq<Tick>, shown: seq<Frame>, env: Env, st0: State, start: nat) {
    && |shown| <= |log| <= |shown| + 1
    && (log != [] ==> log[0].state == st0 && log[0].pos == start)
    && (forall k :: 0 <= k < |log| ==> TickOk(log[k], env, k))
    && (forall k :: 0 <= k < |log| - 1 ==> Follows(log[k], env, k, log[k + 1].state, log[k + 1].pos))
    && (forall k {:trigger Shows(log[k], env, shown[k])} :: 0 <= k < |shown| ==> Shows(log[k], env, shown[k]))
  }

  /** The read number at which the loop reads after log, when it was entered at read number start. */
  ghost function NextRead(log: seq<Tick>, start: nat): nat {
    if log == [] then start else AfterKey(log[|log| - 1].pos + 1, log[|log| - 1].key)
  }

  /** After log, the loop entered in st0 at read number start is in state st and reads next at pos. */
  ghost predicate Linked(log: seq<Tick>, env: Env, st: State, pos: nat, st0: State, start: nat) {
    && (log == [] ==> st == st0 && pos == start)
    && (log != [] ==> Follows(log[|log| - 1], env, |log| - 1, st, pos))
  }

  /** One more tick, taken where the previous one led, keeps the trace. */
  lemma TraceExtend(log: seq<Tick>, shown: seq<Frame>, env: Env, st0: State, start: nat,
                    tick: Tick, out: Option<Frame>)
    requires Trace(log, shown, env, st0, start) && |log| == |shown|
    requires Linked(log, env, tick.state, tick.pos, st0, start)
    requires TickOk(tick, env, |log|)
    requires out.Some? ==> Shows(tick, env, out.value)
    ensures Trace(log + [tick], if out.Some? then shown + [out.value] else shown, env, st0, start)
  {
    var log', shown' := log + [tick], if out.Some? then shown + [out.value] else shown;
    forall k | 0 <= k < |shown'|
      ensures Shows(log'[k], env, shown'[k])
    {
      if k < |shown| {
        assert log'[k] == log[k] && shown'[k] == shown[k];
      }
    }
    forall k | 0 <= k < |log'| - 1
      ensures Follows(log'[k], env, k, log'[k + 1].state, log'[k + 1].pos)
    {
      if k < |log| - 1 {
        assert log'[k] == log[k] && log'[k + 1] == log[k + 1];
      }
    }
  }

  /**
   * hp.py:59-88 on the frame of tick: run the pipeline and pass its output
   * to imshow, i.e. append it to shown, or stop on the fault OpenCV raises.
   * Either way the tick joins the log and the trace is kept.
   */
  method ShowFrame(tick: Tick, conv: Pixel -> Pixel, ghost env: Env, ghost st0: State, ghost start: nat,
                   shown: seq<Frame>, ghost log: seq<Tick>)
    returns (fault: Option<Fault>, shown': seq<Frame>, ghost log': seq<Tick>)
    requires conv == env.conv
    requires Trace(log, shown, env, st0, start) && |log| == |shown|
    requires Linked(log, env, tick.state, tick.pos, st0, start) && TickOk(tick, env, |log|)
    ensures log' == log + [tick] && Trace(log', shown', env, st0, start)
    ensures fault.None? ==> |shown'| == |log'|
    ensures fault.Some? ==> shown' == shown && Raises(tick, env, fault.value)
  {
    var out := CloakFrame(tick.frame, conv, tick.state.background, SelectBounds(tick.state.calib, tick.state.window));
    log' := log + [tick];
    if out.Err? {
      TraceExtend(log, shown, env, st0, start, tick, None);
      return Some(out.error), shown, log';
    }
    TraceExtend(log, shown, env, st0, start, tick, Some(out.value));
    fault, shown' := None, shown + [out.value];
  }

  /**
   * hp.py:94-109 after the frame is shown: the trackbar drags, then the key.
   * On 'b' the camera is read 40 more times and the background becomes
   * what that capture returned, None included.
   */
  method HandleKey(cap: Camera, st: State, key: int, moves: seq<Move>) returns (next: State)
    modifies cap`attempts
    ensures cap.attempts == AfterKey(old(cap.attempts), key)
    ensures next == Step(st, key, moves, Recapture(cap.feed, old(cap.attempts), key))
  {
    var code := KeyCode(key);
    var recaptured: Option<Frame> := None;
    if code == KEY_BACKGROUND {
      recaptured := CaptureBackground(cap, CAPTURE_FRAMES, FLIP);
    }
    next := Dispatch(Adjust(st, moves), code, recaptured);
  }

  /**
   * One pass of the loop of hp.py:54-109, in state st with the trace so
   * far: read a frame, mirror it, show the pipeline's output, then handle
   * the drags and the key. exit is how the loop ends here, None if it
   * goes on in state st'.
   */
  method Pass(cap: Camera, conv: Pixel -> Pixel, keys: seq<int>, moves: seq<seq<Move>>, t: nat,
              st: State, shown: seq<Frame>, ghost log: seq<Tick>, ghost st0: State, ghost start: nat)
    returns (exit: Option<Exit>, st': State, shown': seq<Frame>, ghost log': seq<Tick>)
    requires t == |log| == |shown| && Consistent(st) && st.running
    requires Trace(log, shown, Env(cap.feed, keys, moves, conv), st0, start)
    requires Linked(log, Env(cap.feed, keys, moves, conv), st, cap.attempts, st0, start)
    modifies cap`attempts
    ensures Trace(log', shown', Env(cap.feed, keys, moves, conv), st0, start)
    ensures exit.None? ==>
      |log'| == |shown'| == t + 1 && Consistent(st') && st'.running &&
      Linked(log', Env(cap.feed, keys, moves, conv), st', cap.attempts, st0, start) &&
      Remaining(cap) < old(Remaining(cap))
    ensures exit == Some(StreamEnded) ==>
      log' == log && shown' == shown &&
      cap.attempts == NextRead(log, start) + 1 && FeedAt(cap.feed, NextRead(log, start)).None?
    ensures exit.Some? && exit.value.Crashed? ==>
      |log'| == t + 1 && shown' == shown &&
      Raises(log'[t], Env(cap.feed, keys, moves, conv), exit.value.fault) && cap.attempts == log'[t].pos + 1
    ensures exit == Some(Quit) ==>
      |log'| == |shown'| == t + 1 && KeyCode(log'[t].key) == KEY_QUIT && cap.attempts == log'[t].pos + 1
    ensures exit.Some? ==> exit.value == StreamEnded || exit.value == Quit || exit.value.Crashed?
  {
    ghost var env := Env(cap.feed, keys, moves, conv);
    st', shown', log' := st, shown, log;
    var pos := cap.attempts;
    var read := cap.Read();
    if read.None? {
      return Some(StreamEnded), st', shown', log';
    }
    var frame := read.value;
    if FLIP {
      frame := Mirror(frame);
    }
    var key := KeyAt(keys, t);
    var fault;
    fault, shown', log' := ShowFrame(Tick(pos, frame, st, key), conv, env, st0, start, shown, log);
    if fault.Some? {
      return Some(Crashed(fault.value)), st', shown', log';
    }
    st' := HandleKey(cap, st, key, MovesAt(moves, t));
    exit := if st'.running then None else Some(Quit);
  }

  /**
   * The loop of hp.py:54-109, entered in state st0. keys[t] is what waitKey
   * returns in pass t, moves[t] the trackbar drags made during that wait;
   * conv is the BGR to HSV conversion of one pixel. shown holds the frames
   * passed to imshow before the text overlay; log records each pass that
   * got a frame. The passes read the feed one after another, skipping only
   * the reads of a re-capture, and the loop stops at the first failed read.
   */
  method FrameLoop(cap: Camera, conv: Pixel -> Pixel, keys: seq<int>, moves: seq<seq<Move>>, st0: State)
    returns (exit: Exit, shown: seq<Frame>, ghost log: seq<Tick>)
    requires Consistent(st0) && st0.running
    modifies cap`attempts
    ensures exit == StreamEnded || exit == Quit || exit.Crashed?
    ensures Trace(log, shown, Env(cap.feed, keys, moves, conv), st0, old(cap.attempts))
    ensures |shown| == if exit.Crashed? then |log| - 1 else |log|
    ensures exit.Crashed? ==>
      log != [] && Raises(log[|log| - 1], Env(cap.feed, keys, moves, conv), exit.fault) &&
      cap.attempts == log[|log| - 1].pos + 1
    ensures exit == Quit ==>
      log != [] && KeyCode(log[|log| - 1].key) == KEY_QUIT && cap.attempts == log[|log| - 1].pos + 1
    ensures exit == StreamEnded ==>
      cap.attempts == NextRead(log, old(cap.attempts)) + 1 &&
      FeedAt(cap.feed, NextRead(log, old(cap.attempts))).None?
  {
    ghost var start := cap.attempts;
    shown, log := [], [];
    var st := st0;
    var t := 0;
    while true
      invariant t == |log| == |shown|
      invariant Consistent(st) && st.running
      invariant Trace(log, shown, Env(cap.feed, keys, moves, conv), st0, start)
      invariant Linked(log, Env(cap.feed, keys, moves, conv), st, cap.attempts, st0, start)
      decreases Remaining(cap)
    {
      var ended;
      ended, st, shown, log := Pass(cap, conv, keys, moves, t, st, shown, log, st0, start);
      if ended.Some? {
        exit := ended.value;
        break;
      }
      t := t + 1;
    }
  }

  /**
   * main(): the camera must have opened and the startup capture must have
   * produced a background before the loop runs. cap.release() is called
   * only after the loop has ended by 'q' or by a failed read (hp.py:111).
   */
  method Run(cap: Camera, conv: Pixel -> Pixel, keys: seq<int>, moves: seq<seq<Move>>)
    returns (exit: Exit, shown: seq<Frame>, ghost log: seq<Tick>)
    modifies cap
    ensures !cap.isOpened ==> exit == CameraNotFound && cap.attempts == old(cap.attempts)
    ensures exit == CameraNotFound ==> !cap.isOpened
    ensures cap.isOpened ==> (exit == CaptureFailed <==> Captured(cap.feed, old(cap.attempts)).None?)
    ensures exit == CaptureFailed ==> cap.attempts == old(cap.attempts) + CAPTURE_FRAMES
    ensures exit == CameraNotFound || exit == CaptureFailed ==> shown == [] && log == []
    ensures cap.released <==> old(cap.released) || exit == StreamEnded || exit == Quit
    ensures exit != CameraNotFound && exit != CaptureFailed ==>
      cap.isOpened && Captured(cap.feed, old(cap.attempts)).Some? &&
      Trace(log, shown, Env(cap.feed, keys, moves, conv),
            Initial(Captured(cap.feed, old(cap.attempts)).value), old(cap.attempts) + CAPTURE_FRAMES)
    ensures |shown| == if exit.Crashed? then |log| - 1 else |log|
    ensures exit.Crashed? ==> log != [] && Raises(log[|log| - 1], Env(cap.feed, keys, moves, conv), exit.fault)
    ensures exit == Quit ==> log != [] && KeyCode(log[|log| - 1].key) == KEY_QUIT
    ensures exit == Quit || exit.Crashed? ==> log != [] && cap.attempts == log[|log| - 1].pos + 1
    ensures exit == StreamEnded ==>
      cap.attempts == NextRead(log, old(cap.attempts) + CAPTURE_FRAMES) + 1 &&
      FeedAt(cap.feed, NextRead(log, old(cap.attempts) + CAPTURE_FRAMES)).None?
  {
    shown, log := [], [];
    if !cap.isOpened {
      return CameraNotFound, shown, log;
    }
    var startup := CaptureBackground(cap, CAPTURE_FRAMES, FLIP);
    if startup.None? {
      return CaptureFailed, shown, log;
    }
    exit, shown, log := FrameLoop(cap, conv, keys, moves, Initial(startup.value));
    if exit.Crashed? {
      return;
    }
    cap.Release();
  }
}
