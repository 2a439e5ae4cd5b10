/** The pure parts of the animation worker in AnimSurfaceView.java: Java's
    32-bit `int` arithmetic where the worker relies on it, the end-of-iteration
    sleep, and one draw step as a function of the view's state and of what the
    surface and the image decoder hand back. */
module Playback {

  datatype Option<+T> = None | Some(value: T) {
    /** The value, or `default` when there is none. */
    function GetOr(default: T): T {
      match this
      case Some(v) => v
      case None => default
    }
  }

  // ---------------------------------------------------------------------------
  // Java `int`
  // ---------------------------------------------------------------------------

  const INT32_MIN: int := -0x8000_0000
  const INT32_MAX: int := 0x7fff_ffff
  const TWO_TO_32: int := 0x1_0000_0000

  predicate IsInt32(x: int) {
    INT32_MIN <= x <= INT32_MAX
  }

  /** Java's narrowing conversion `(int)` of a `long`, and the result of
      `int` arithmetic: the value congruent to `x` modulo 2^32 in the `int` range. */
  function ToInt32(x: int): (r: int)
    ensures IsInt32(r)
    ensures IsInt32(x) ==> r == x
  {
    (x - INT32_MIN) % TWO_TO_32 + INT32_MIN
  }

  /** `ToInt32` keeps the low 32 bits: it changes its argument by a multiple
      of 2^32 only. */
  lemma ToInt32Wraps(x: int)
    ensures (x - ToInt32(x)) % TWO_TO_32 == 0
    ensures ToInt32(x + TWO_TO_32) == ToInt32(x)
  {
  }

  function Max(a: int, b: int): int {
    if a < b then b else a
  }

  // ---------------------------------------------------------------------------
  // Timing of one loop iteration
  // ---------------------------------------------------------------------------

  /** Milliseconds the worker sleeps at the end of an iteration whose draw took
      `diff` milliseconds, with `interval` the configured frame interval. Both
      are Java `int`s. Only an iteration shorter than the interval sleeps, for
      the rest of the interval; `interval - diff` is `int` arithmetic, and a
      negative argument makes `Thread.sleep` throw, which the worker catches,
      so that iteration does not sleep at all. */
  function SleepTime(diff: int, interval: int): (sleep: int)
    requires IsInt32(diff) && IsInt32(interval)
    ensures 0 <= sleep
    ensures interval <= diff ==> sleep == 0
    ensures diff < interval ==> sleep == (if interval - diff <= INT32_MAX then interval - diff else 0)
  {
    if diff < interval then
      var d := ToInt32(interval - diff);
      if d < 0 then 0 else d
    else
      0
  }

  /** An iteration that took `diff >= 0` milliseconds lasts, with its sleep,
      exactly `max(diff, interval)`: it is stretched to the interval and never
      shortened, and the sleep never exceeds a non-negative interval. */
  lemma SleepFillsInterval(diff: int, interval: int)
    requires IsInt32(diff) && IsInt32(interval) && 0 <= diff
    ensures diff + SleepTime(diff, interval) == Max(diff, interval)
    ensures 0 <= interval ==> SleepTime(diff, interval) <= interval
  {
  }

  /** The worker measures an iteration as the `long` difference of two clock
      readings and narrows it to `int` before comparing it with the interval.
      Up to `INT32_MAX` milliseconds the narrowing is exact and the iteration
      is stretched to the interval; a longer iteration (below 2^32 ms) narrows
      to a negative `int` and so is treated as a clock that went backwards:
      it sleeps for more than the interval, or not at all once
      `interval - diff` overflows. */
  lemma ElapsedNarrowing(elapsed: int, interval: int)
    requires IsInt32(interval) && 0 <= interval
    requires 0 <= elapsed < TWO_TO_32
    ensures elapsed <= INT32_MAX ==> SleepTime(ToInt32(elapsed), interval) == Max(interval - elapsed, 0)
    ensures INT32_MAX < elapsed ==>
      && ToInt32(elapsed) == elapsed - TWO_TO_32 < 0
      && SleepTime(ToInt32(elapsed), interval)
         == (if interval + TWO_TO_32 - elapsed <= INT32_MAX then interval + TWO_TO_32 - elapsed else 0)
  {
    if INT32_MAX < elapsed {
      assert ToInt32(elapsed) == elapsed - TWO_TO_32 by {
        ModUnique(elapsed - INT32_MIN, TWO_TO_32, 1, elapsed - INT32_MIN - TWO_TO_32);
      }
    }
  }

  /** Two iterations that ran longer than `INT32_MAX` milliseconds, with the
      default 100 ms interval: 2^32 - 1 ms narrows to -1 and sleeps 101 ms,
      2^31 ms narrows to `INT32_MIN` and does not sleep. */
  lemma LongIterations()
    ensures ToInt32(TWO_TO_32 - 1) == -1 && SleepTime(ToInt32(TWO_TO_32 - 1), 100) == 101
    ensures ToInt32(0x8000_0000) == INT32_MIN && SleepTime(ToInt32(0x8000_0000), 100) == 0
  {
    ElapsedNarrowing(TWO_TO_32 - 1, 100);
    ElapsedNarrowing(0x8000_0000, 100);
  }

  // ---------------------------------------------------------------------------
  // One draw step
  // ---------------------------------------------------------------------------

  /** A decoded frame, reduced to its natural size. */
  datatype Bitmap = Bitmap(width: int, height: int)

  /** `android.graphics.Rect`. */
  datatype Rect = Rect(left: int, top: int, right: int, bottom: int)

  /** What one call of `draw()` did. */
  datatype DrawOutcome =
    | NoFrames      // the frame array is empty: nothing is locked, drawn or advanced
    | NoCanvas      // the surface returned no canvas: nothing is drawn or advanced
      /** Frame `frame` at position `index` did not decode: the index has
          advanced, nothing is drawn, and the locked canvas is never posted. */
    | DecodeFailed(index: nat, frame: int)
      /** Frame `frame` at position `index` was drawn, from `src` of the
          bitmap to `dest` of the view, and the canvas was posted. */
    | Drawn(index: nat, frame: int, src: Rect, dest: Rect)
  {
    /** The step consumed a frame position (whether or not it drew it). */
    predicate Used() {
      DecodeFailed? || Drawn?
    }
  }

  /** The outcome of a draw step together with `imgIndex` after it. */
  datatype Step = Step(outcome: DrawOutcome, imgIndex: nat)

  /** The position a step that found a canvas draws: `imgIndex` itself, or the
      first frame once `imgIndex` has run past the end of the array (it is
      reset to 0, not reduced modulo the length). */
  function Slot(imgIndex: nat, n: nat): (k: nat)
    requires 0 < n
    ensures k < n
    ensures imgIndex < n ==> k == imgIndex
    ensures n <= imgIndex ==> k == 0
  {
    if imgIndex >= n then 0 else imgIndex
  }

  /** One draw step over the frame array `frames` starting at `imgIndex`.
      `canvas` says whether the surface handed out a canvas, `bitmap` is what
      the decoder returned for the chosen frame at the view's size
      `width` x `height`. */
  function DrawStep(frames: seq<int>, imgIndex: nat, canvas: bool, bitmap: Option<Bitmap>,
                    width: int, height: int): (s: Step)
    ensures |frames| == 0 ==> s == Step(NoFrames, imgIndex)
    ensures 0 < |frames| && !canvas ==> s == Step(NoCanvas, imgIndex)
    ensures 0 < |frames| && canvas ==>
      && s.outcome.Used()
      && s.outcome.index < |frames|
      && (imgIndex < |frames| ==> s.outcome.index == imgIndex)
      && (|frames| <= imgIndex ==> s.outcome.index == 0)
      && s.outcome.frame == frames[s.outcome.index]
      && s.imgIndex == s.outcome.index + 1 <= |frames|
      && (s.outcome.DecodeFailed? <==> bitmap.None?)
      && (s.outcome.Drawn? ==>
            && s.outcome.src == Rect(0, 0, bitmap.value.width, bitmap.value.height)
            && s.outcome.dest == Rect(0, 0, width, height))
  {
    if |frames| == 0 then Step(NoFrames, imgIndex)
    else if !canvas then Step(NoCanvas, imgIndex)
    else
      var k := Slot(imgIndex, |frames|);
      match bitmap
      case None => Step(DecodeFailed(k, frames[k]), k + 1)
      case Some(b) => Step(Drawn(k, frames[k], Rect(0, 0, b.width, b.height), Rect(0, 0, width, height)), k + 1)
  }

  // ---------------------------------------------------------------------------
  // Successive draw steps
  // ---------------------------------------------------------------------------

  /** `imgIndex` after `k` draw steps over `n` frames that each found a canvas,
      starting from `imgIndex`. Whether the frames decoded does not matter. */
  function Advance(imgIndex: nat, n: nat, k: nat): (i: nat)
    requires 0 < n
    ensures 0 < k ==> 0 < i <= n
  {
    if k == 0 then imgIndex else Slot(Advance(imgIndex, n, k - 1), n) + 1
  }

  /** Euclidean division has one remainder: `a == q * n + r` with
      `0 <= r < n` fixes `a % n` as `r`. */
  lemma ModUnique(a: int, n: int, q: int, r: int)
    requires 0 < n && a == q * n + r && 0 <= r < n
    ensures a % n == r
  {
    var d := a / n - q;
    assert d * n == r - a % n by {
      assert a == (a / n) * n + a % n;
      assert (a / n) * n - q * n == d * n;
    }
  }

  /** The step after position `m mod n` uses position `(m + 1) mod n`. */
  lemma SlotAfter(m: nat, n: nat)
    requires 0 < n
    ensures Slot(m % n + 1, n) == (m + 1) % n
  {
    var q, r := m / n, m % n;
    assert m == q * n + r;
    if r + 1 < n {
      ModUnique(m + 1, n, q, r + 1);
    } else {
      assert m + 1 == (q + 1) * n + 0;
      ModUnique(m + 1, n, q + 1, 0);
    }
  }

  /** The positions drawn by successive steps that find a canvas cycle through
      the array in order: the `k`-th such step after `imgIndex` uses position
      `(Slot(imgIndex, n) + k) mod n`, so from 0 they are 0, 1, ..., n-1, 0, ... */
  lemma {:induction false} CyclesInOrder(imgIndex: nat, n: nat, k: nat)
    requires 0 < n
    ensures Slot(Advance(imgIndex, n, k), n) == (Slot(imgIndex, n) + k) % n
  {
    if k > 0 {
      CyclesInOrder(imgIndex, n, k - 1);
      SlotAfter(Slot(imgIndex, n) + k - 1, n);
    }
  }

  // ---------------------------------------------------------------------------
  // Iterations of the worker's loop
  // ---------------------------------------------------------------------------

  /** What the outside world supplies to one iteration of the worker's loop:
      whether the surface hands out a canvas, what the decoder returns, the
      view's size, and the clock difference measured around the draw, in
      milliseconds, as a `long`. */
  datatype Iteration = Iteration(canvas: bool, bitmap: Option<Bitmap>, width: int, height: int, elapsed: int)

  /** The number of iterations in `trace` that found a canvas. */
  function Available(trace: seq<Iteration>): (c: nat)
    ensures c <= |trace|
  {
    if trace == [] then 0
    else Available(trace[..|trace| - 1]) + (if trace[|trace| - 1].canvas then 1 else 0)
  }

  /** `out`, the result of an unpaused iteration `it` over a non-empty frame
      array, skipped for want of a canvas or used position `k`, and drew
      exactly when the decoder returned a bitmap. */
  predicate Played(out: Option<DrawOutcome>, it: Iteration, k: nat) {
    && out.Some?
    && (!it.canvas ==> out.value == NoCanvas)
    && (it.canvas ==> out.value.Used() && out.value.index == k && (out.value.Drawn? <==> it.bitmap.Some?))
  }

  /** One iteration's draw step from `imgIndex` plays position
      `Slot(imgIndex, n)` when it finds a canvas, skips otherwise, and moves
      `imgIndex` exactly as `Advance` does over the steps that found a canvas;
      whether the frame decoded does not matter to the position. */
  lemma DrawStepAdvances(frames: seq<int>, imgIndex: nat, it: Iteration)
    requires 0 < |frames|
    ensures var s := DrawStep(frames, imgIndex, it.canvas, it.bitmap, it.width, it.height);
      && s.imgIndex == Advance(imgIndex, |frames|, if it.canvas then 1 else 0)
      && Played(Some(s.outcome), it, Slot(imgIndex, |frames|))
  {
  }

  lemma AvailablePrefix(trace: seq<Iteration>, i: nat)
    requires i < |trace|
    ensures Available(trace[..i + 1]) == Available(trace[..i]) + if trace[i].canvas then 1 else 0
  {
    var prefix := trace[..i + 1];
    assert prefix[..|prefix| - 1] == trace[..i];
  }

  /** Iteration `i` of a trace, run from the position the earlier iterations
      left, plays that position (or skips for want of a canvas) and leaves the
      position the first `i + 1` iterations lead to. */
  lemma StepInTrace(frames: seq<int>, start: nat, trace: seq<Iteration>, i: nat)
    requires 0 < |frames| && i < |trace|
    ensures var before := Advance(start, |frames|, Available(trace[..i]));
      var s := DrawStep(frames, before, trace[i].canvas, trace[i].bitmap, trace[i].width, trace[i].height);
      && s.imgIndex == Advance(start, |frames|, Available(trace[..i + 1]))
      && Played(Some(s.outcome), trace[i], Slot(before, |frames|))
  {
    var before := Advance(start, |frames|, Available(trace[..i]));
    DrawStepAdvances(frames, before, trace[i]);
    AvailablePrefix(trace, i);
  }

  /** What a run of the worker's loop over `trace` produced: per iteration,
      the draw step's outcome (`None` when paused) and the sleep, and
      `imgIndex` at the end. */
  datatype RunResult = RunResult(outs: seq<Option<DrawOutcome>>, sleeps: seq<int>, imgIndex: nat)

  /** The iterations of `trace`, one after the other, from `imgIndex == start`
      with the frame array, the pause flag and the interval fixed. */
  function Simulate(frames: seq<int>, paused: bool, interval: int, start: nat, trace: seq<Iteration>): (r: RunResult)
    requires IsInt32(interval)
    ensures |r.outs| == |trace| && |r.sleeps| == |trace|
  {
    if trace == [] then RunResult([], [], start)
    else
      var prev := Simulate(frames, paused, interval, start, trace[..|trace| - 1]);
      var it := trace[|trace| - 1];
      var sleep := SleepTime(ToInt32(it.elapsed), interval);
      if paused then
        RunResult(prev.outs + [None], prev.sleeps + [sleep], prev.imgIndex)
      else
        var s := DrawStep(frames, prev.imgIndex, it.canvas, it.bitmap, it.width, it.height);
        RunResult(prev.outs + [Some(s.outcome)], prev.sleeps + [sleep], s.imgIndex)
  }

  /** `out` is an iteration whose frame failed to decode, leaving its canvas
      locked and never posted. */
  predicate IsFailed(out: Option<DrawOutcome>) {
    out.Some? && out.value.DecodeFailed?
  }

  /** `out` is an iteration that drew a frame. */
  predicate IsDrawn(out: Option<DrawOutcome>) {
    out.Some? && out.value.Drawn?
  }

  /** Canvases a run left locked: one per iteration whose frame failed to
      decode, and none when no frame failed. */
  function Unposted(outs: seq<Option<DrawOutcome>>): (c: nat)
    ensures c <= |outs|
    ensures c == 0 <==> forall j :: 0 <= j < |outs| ==> !IsFailed(outs[j])
  {
    if outs == [] then 0
    else
      var init := outs[..|outs| - 1];
      assert forall j :: 0 <= j < |init| ==> init[j] == outs[j];
      Unposted(init) + (if IsFailed(outs[|outs| - 1]) then 1 else 0)
  }

  /** Drawn outcome `j` is the last one in `outs`. */
  predicate LastDrawnAt(outs: seq<Option<DrawOutcome>>, j: nat)
    requires j < |outs|
  {
    IsDrawn(outs[j]) && forall k :: j < k < |outs| ==> !IsDrawn(outs[k])
  }

  /** The source and destination rectangles after a run that began with
      `rects`: those of the last frame drawn, and `rects` when no frame was
      drawn, since only a drawn frame updates them. */
  function FinalRects(outs: seq<Option<DrawOutcome>>, rects: (Rect, Rect)): (r: (Rect, Rect))
    ensures (forall j :: 0 <= j < |outs| ==> !IsDrawn(outs[j])) ==> r == rects
    ensures forall j :: 0 <= j < |outs| && LastDrawnAt(outs, j) ==> r == (outs[j].value.src, outs[j].value.dest)
  {
    if outs == [] then rects
    else
      var init, last := outs[..|outs| - 1], outs[|outs| - 1];
      assert forall j :: 0 <= j < |init| ==> init[j] == outs[j];
      if IsDrawn(last) then (last.value.src, last.value.dest) else FinalRects(init, rects)
  }

  /** Iterations of `trace` that found a canvas and got no bitmap. */
  function DecodeFailures(trace: seq<Iteration>): (c: nat)
    ensures c <= Available(trace)
  {
    if trace == [] then 0
    else
      var it := trace[|trace| - 1];
      DecodeFailures(trace[..|trace| - 1]) + (if it.canvas && it.bitmap.None? then 1 else 0)
  }

  /** A run leaves exactly one canvas unposted per iteration that found a
      canvas and failed to decode its frame; a paused run, or one over an
      empty frame array, leaves none. */
  lemma {:induction false} RunLeaks(frames: seq<int>, paused: bool, interval: int, start: nat, trace: seq<Iteration>)
    requires IsInt32(interval)
    ensures Unposted(Simulate(frames, paused, interval, start, trace).outs)
      == if paused || |frames| == 0 then 0 else DecodeFailures(trace)
  {
    if trace != [] {
      var init, it := trace[..|trace| - 1], trace[|trace| - 1];
      RunLeaks(frames, paused, interval, start, init);
      var r, prev := Simulate(frames, paused, interval, start, trace), Simulate(frames, paused, interval, start, init);
      assert r.outs[..|r.outs| - 1] == prev.outs;
    }
  }

  /** Every iteration ends with the sleep `SleepTime` gives for its own
      duration, whatever was drawn. */
  lemma {:induction false} RunSleeps(frames: seq<int>, paused: bool, interval: int, start: nat, trace: seq<Iteration>)
    requires IsInt32(interval)
    ensures var r := Simulate(frames, paused, interval, start, trace);
      forall j :: 0 <= j < |trace| ==> r.sleeps[j] == SleepTime(ToInt32(trace[j].elapsed), interval)
  {
    if trace != [] {
      var init := trace[..|trace| - 1];
      RunSleeps(frames, paused, interval, start, init);
      var r, prev := Simulate(frames, paused, interval, start, trace), Simulate(frames, paused, interval, start, init);
      forall j | 0 <= j < |trace| ensures r.sleeps[j] == SleepTime(ToInt32(trace[j].elapsed), interval) {
        if j < |init| { assert r.sleeps[j] == prev.sleeps[j] && init[j] == trace[j]; }
      }
    }
  }

  /** A paused worker draws nothing and keeps its frame position: a pause
      followed by a resume continues where playback stopped. */
  lemma {:induction false} PausedRunKeepsIndex(frames: seq<int>, interval: int, start: nat, trace: seq<Iteration>)
    requires IsInt32(interval)
    ensures var r := Simulate(frames, true, interval, start, trace);
      r.imgIndex == start && forall j :: 0 <= j < |trace| ==> r.outs[j] == None
  {
    if trace != [] {
      var init := trace[..|trace| - 1];
      PausedRunKeepsIndex(frames, interval, start, init);
      var r, prev := Simulate(frames, true, interval, start, trace), Simulate(frames, true, interval, start, init);
      forall j | 0 <= j < |trace| ensures r.outs[j] == None {
        if j < |init| { assert r.outs[j] == prev.outs[j]; }
      }
    }
  }

  /** A running worker over a non-empty array plays, at each iteration, the
      position the earlier iterations left, and ends where `Advance` over the
      iterations that found a canvas says. */
  lemma {:induction false} RunPositions(frames: seq<int>, interval: int, start: nat, trace: seq<Iteration>)
    requires 0 < |frames| && IsInt32(interval)
    ensures var r := Simulate(frames, false, interval, start, trace);
      && r.imgIndex == Advance(start, |frames|, Available(trace))
      && forall j :: 0 <= j < |trace| ==>
           Played(r.outs[j], trace[j], Slot(Advance(start, |frames|, Available(trace[..j])), |frames|))
  {
    if trace != [] {
      var n, i := |frames|, |trace| - 1;
      var init, it := trace[..i], trace[i];
      var r, prev := Simulate(frames, false, interval, start, trace), Simulate(frames, false, interval, start, init);
      var step := DrawStep(frames, prev.imgIndex, it.canvas, it.bitmap, it.width, it.height);
      assert r.outs == prev.outs + [Some(step.outcome)] && r.imgIndex == step.imgIndex;
      RunPositions(frames, interval, start, init);
      assert step.imgIndex == Advance(start, n, Available(trace))
          && Played(Some(step.outcome), it, Slot(Advance(start, n, Available(init)), n)) by {
        StepInTrace(frames, start, trace, i);
        assert trace[..i + 1] == trace;
      }
      forall j | 0 <= j < |trace|
        ensures Played(r.outs[j], trace[j], Slot(Advance(start, n, Available(trace[..j])), n))
      {
        if j < i {
          assert r.outs[j] == prev.outs[j] && init[j] == trace[j] && init[..j] == trace[..j];
        } else {
          assert r.outs[j] == Some(step.outcome) && trace[j] == it && trace[..j] == init;
        }
      }
    }
  }

  /** The positions a running worker plays cycle through the array in order:
      iteration `j`, when it finds a canvas, uses `(Slot(start, n) + c) mod n`,
      where `c` counts the earlier iterations that found one; when it finds
      none, it draws nothing. */
  lemma RunCycles(frames: seq<int>, interval: int, start: nat, trace: seq<Iteration>, j: nat)
    requires 0 < |frames| && IsInt32(interval) && j < |trace|
    ensures Played(Simulate(frames, false, interval, start, trace).outs[j], trace[j],
                   (Slot(start, |frames|) + Available(trace[..j])) % |frames|)
  {
    var n, c := |frames|, Available(trace[..j]);
    var out := Simulate(frames, false, interval, start, trace).outs[j];
    var k := Slot(Advance(start, n, c), n);
    assert Played(out, trace[j], k) by {
      RunPositions(frames, interval, start, trace);
    }
    assert k == (Slot(start, n) + c) % n by {
      CyclesInOrder(start, n, c);
    }
  }

  /** An empty frame array never draws and never moves `imgIndex`. */
  lemma {:induction false} EmptyArrayDrawsNothing(interval: int, start: nat, trace: seq<Iteration>)
    requires IsInt32(interval)
    ensures var r := Simulate([], false, interval, start, trace);
      r.imgIndex == start && forall j :: 0 <= j < |trace| ==> r.outs[j] == Some(NoFrames)
  {
    if trace != [] {
      var init := trace[..|trace| - 1];
      EmptyArrayDrawsNothing(interval, start, init);
      var r, prev := Simulate([], false, interval, start, trace), Simulate([], false, interval, start, init);
      forall j | 0 <= j < |trace| ensures r.outs[j] == Some(NoFrames) {
        if j < |init| { assert r.outs[j] == prev.outs[j]; }
      }
    }
  }

  /** Frames `[a, b, c]` where only `b` fails to decode, four iterations that
      all find a canvas: `a` is drawn, `b` is skipped, `c` and then `a` are
      drawn, and the position has moved past `b` regardless. */
  lemma DecodeFailureScenario(a: int, b: int, c: int)
    ensures var ok := Some(Bitmap(4, 3));
      var trace := [Iteration(true, ok, 8, 6, 0), Iteration(true, None, 8, 6, 0),
                    Iteration(true, ok, 8, 6, 0), Iteration(true, ok, 8, 6, 0)];
      var src, dest := Rect(0, 0, 4, 3), Rect(0, 0, 8, 6);
      Simulate([a, b, c], false, 50, 0, trace) ==
        RunResult([Some(Drawn(0, a, src, dest)), Some(DecodeFailed(1, b)),
                   Some(Drawn(2, c, src, dest)), Some(Drawn(0, a, src, dest))],
                  [50, 50, 50, 50], 1)
  {
    var ok := Some(Bitmap(4, 3));
    var trace := [Iteration(true, ok, 8, 6, 0), Iteration(true, None, 8, 6, 0),
                  Iteration(true, ok, 8, 6, 0), Iteration(true, ok, 8, 6, 0)];
    var src, dest := Rect(0, 0, 4, 3), Rect(0, 0, 8, 6);
    var frames := [a, b, c];
    assert trace[..1][..0] == [];
    assert Simulate(frames, false, 50, 0, trace[..1]) == RunResult([Some(Drawn(0, a, src, dest))], [50], 1);
    assert Simulate(frames, false, 50, 0, trace[..2]) ==
      RunResult([Some(Drawn(0, a, src, dest)), Some(DecodeFailed(1, b))], [50, 50], 2) by {
      assert trace[..2][..1] == trace[..1];
    }
    assert Simulate(frames, false, 50, 0, trace[..3]) ==
      RunResult([Some(Drawn(0, a, src, dest)), Some(DecodeFailed(1, b)), Some(Drawn(2, c, src, dest))], [50, 50, 50], 3) by {
      assert trace[..3][..2] == trace[..2];
    }
    assert trace[..4] == trace;
  }
}
