# AnimSurfaceView playback controller in Dafny

`AnimSurfaceView` is an Android `SurfaceView` that plays an array of image
resources as a frame-by-frame animation. A worker thread runs a
`while (shouldDraw)` loop. Each pass locks the surface's canvas, decodes the
next frame at the view's size, draws it stretched over the view, posts the
canvas, and sleeps for the rest of the frame interval. The host controls it
with `start`, `pause`, `resume` and `setImgArrayRes`. The surface callbacks
start playback (`surfaceCreated`, only with the `autoStart` attribute) and stop
it (`surfaceDestroyed` calls `destroy`). An optional callback receives `onStart`
and `onStop`.

This project models that controller as a sequential state machine.

- `playback.dfy`, module `Playback`, holds the pure parts:
  - Java's 32-bit `int` narrowing;
  - the end-of-iteration sleep (`SleepTime`);
  - one draw step (`DrawStep`), as a function of the frame array, `imgIndex`,
    whether a canvas was available and what the decoder returned;
  - `Simulate`, a run of the worker's loop over a trace of iterations, with
    the lemmas saying how the frame position moves and cycles.
- `anim_surface_view.dfy`, module `AnimSurface`, holds class
  `AnimSurfaceView`:
  - its fields are the source's fields. The `drawThread` handle is the flag
    `hasWorker` and `animCallback` is the flag `hasCallback`;
  - its methods change them in place, as the Java methods do;
  - every method is proved to follow a function on the datatype `ViewState`
    (the view's abstract value). Lemmas about those functions state what the
    controller promises;
  - a ghost log records each worker launch and finish. The entry's
    `notified` flag says whether `onStart` or `onStop` fired. A ghost counter
    `unposted` counts canvases that were locked and never posted.

The environment is passed in as parameters:
- whether `lockCanvas` returned a canvas;
- the decoded bitmap, or `None` when decoding failed;
- the view's width and height;
- the clock difference around a draw;
- the resource lookup `getImgResArray`, a function from array ids to frame ids.

Behaviour a reader might not expect, modelled as the code has it:
- **Position past the end.** `imgIndex` is reset to 0 once it reaches the
  array length. It is not reduced modulo the length. The two differ after a
  switch to a shorter array (`ShorterArrayRestartsAtZero`).
- **Decode failure.** When decoding fails, `draw` returns without
  `unlockCanvasAndPost`, so that canvas is never posted
  (`DrawOutcome.DecodeFailed`, `unposted`).
- **No image array.** Without an image array, the frame array is `[0]`, not
  empty.
- **Changing the array.** `setImgArrayRes` changes only the array. The
  interval comes from the layout attribute alone.
- **No surface state.** The code keeps no Absent/Ready/Destroyed surface
  state. A `surfaceCreated` after a `surfaceDestroyed` starts playback again
  when `autoStart` is set.

## Model

| member | source | states |
|---|---|---|
| `Playback.ToInt32` | app/src/main/java/com/demo/AnimSurfaceView.java:143 | the `(int)` cast of the measured `long` yields a Java `int` and leaves in-range values unchanged |
| `Playback.ToInt32Wraps` | app/src/main/java/com/demo/AnimSurfaceView.java:143 | the cast changes its argument only by a multiple of 2^32 (it keeps the low 32 bits) |
| `Playback.SleepTime` | app/src/main/java/com/demo/AnimSurfaceView.java:146-152 | the sleep is never negative; it is 0 when the draw took the whole interval or longer; otherwise it is `interval - diff`, longer than the interval when the clock went backwards (`diff < 0`), and 0 when `interval - diff` overflows `int`, because `Thread.sleep` then throws and the exception is swallowed |
| `Playback.SleepFillsInterval` | app/src/main/java/com/demo/AnimSurfaceView.java:142-152 | for `diff >= 0`, draw time plus sleep equals `max(diff, interval)`, and the sleep is at most a non-negative interval |
| `Playback.ElapsedNarrowing` | app/src/main/java/com/demo/AnimSurfaceView.java:133-148 | for an elapsed time below 2^32 ms and a non-negative interval: up to `INT32_MAX` ms the sleep is `max(interval - elapsed, 0)`; above it the cast yields the negative `elapsed - 2^32`, and the iteration sleeps `interval + 2^32 - elapsed` (more than the interval), or 0 once that overflows `int` |
| `Playback.LongIterations` | app/src/main/java/com/demo/AnimSurfaceView.java:143-148 | with the 100 ms default, an iteration of 2^32 - 1 ms narrows to -1 and sleeps 101 ms; one of 2^31 ms narrows to `INT32_MIN` and does not sleep |
| `Playback.Slot` | app/src/main/java/com/demo/AnimSurfaceView.java:173-175 | the position used is in bounds: `imgIndex` itself when it is below the length, and 0 (a reset, not a modulo) when it is at or past it |
| `Playback.DrawStep` | app/src/main/java/com/demo/AnimSurfaceView.java:163-200 | empty array: nothing happens; no canvas: nothing drawn, index unchanged; otherwise the used position is in bounds and is `imgIndex` or 0 after running past the end, the frame id is the array's element there, `imgIndex` becomes used + 1 (at most the length), and decode failure (no draw) happens exactly when the decoder returned nothing; a drawn frame goes from the whole bitmap to the whole view |
| `Playback.Advance` | app/src/main/java/com/demo/AnimSurfaceView.java:173-177 | after at least one step that found a canvas, `imgIndex` lies in `1..n` |
| `Playback.CyclesInOrder` | app/src/main/java/com/demo/AnimSurfaceView.java:173-177 | the k-th step that finds a canvas uses position `(Slot(imgIndex, n) + k) mod n`, so from 0 the positions are 0, 1, ..., n-1, 0, ... |
| `Playback.DrawStepAdvances` | app/src/main/java/com/demo/AnimSurfaceView.java:168-180 | a step with a canvas uses `Slot(imgIndex, n)` and advances once even when decoding fails; one without a canvas neither draws nor advances |
| `Playback.StepInTrace` | app/src/main/java/com/demo/AnimSurfaceView.java:130-137 | iteration `i` of the loop plays the position the earlier iterations left and leaves the position the first `i + 1` iterations lead to |
| `Playback.Simulate` | app/src/main/java/com/demo/AnimSurfaceView.java:130-153 | a run over `k` iterations yields exactly `k` outcomes and `k` sleeps |
| `Playback.RunSleeps` | app/src/main/java/com/demo/AnimSurfaceView.java:142-152 | every iteration of a run sleeps `SleepTime` of its own narrowed duration, whether it drew, skipped or was paused |
| `Playback.PausedRunKeepsIndex` | app/src/main/java/com/demo/AnimSurfaceView.java:135-137 | while paused the loop draws nothing and `imgIndex` does not move |
| `Playback.RunPositions` | app/src/main/java/com/demo/AnimSurfaceView.java:130-137 | over a non-empty array, each unpaused iteration skips without a canvas or plays the position the earlier iterations left; the run ends at `Advance` over the iterations that found a canvas |
| `Playback.RunCycles` | app/src/main/java/com/demo/AnimSurfaceView.java:164-180 | iteration `j` of an unpaused run plays position `(Slot(start, n) + c) mod n`, where `c` counts the earlier iterations that found a canvas, and it draws exactly when the frame decoded |
| `Playback.Unposted` | app/src/main/java/com/demo/AnimSurfaceView.java:168-180 | the canvases a run left locked number at most its iterations, and are 0 exactly when no iteration failed to decode |
| `Playback.FinalRects` | app/src/main/java/com/demo/AnimSurfaceView.java:189-195 | after a run the rectangles are those of the last drawn frame, and the starting ones when no frame was drawn |
| `Playback.DecodeFailures` | app/src/main/java/com/demo/AnimSurfaceView.java:168-180 | the iterations that found a canvas and got no bitmap are among those that found a canvas |
| `Playback.RunLeaks` | app/src/main/java/com/demo/AnimSurfaceView.java:130-180 | a run leaves one unposted canvas per iteration that found a canvas and failed to decode; a paused run or one over an empty array leaves none |
| `Playback.EmptyArrayDrawsNothing` | app/src/main/java/com/demo/AnimSurfaceView.java:164-166 | with an empty frame array, every iteration returns without drawing and `imgIndex` never moves |
| `Playback.DecodeFailureScenario` | app/src/main/java/com/demo/AnimSurfaceView.java:173-180 | over `[a, b, c]` where only `b` fails to decode, four iterations draw `a`, skip `b`, draw `c`, then draw `a` again |
| `AnimSurface.AtMostOneWorker` | app/src/main/java/com/demo/AnimSurfaceView.java:202-228 | in an alternating lifecycle log, the workers launched and not yet finished number `|log| mod 2`, never more than one |
| `AnimSurface.InitialDefaults` | app/src/main/java/com/demo/AnimSurfaceView.java:85-91 | the defaults are interval 100, no auto-start and the frame array `[0]`; a new view has no worker, is not drawing and starts at index 0 |
| `AnimSurface.StartOnce` | app/src/main/java/com/demo/AnimSurfaceView.java:202-210 | `start` sets `shouldDraw` and clears `isPaused`; it launches a worker, logged with `onStart` when a callback is set, only when none exists; `start` twice is `start` once; afterwards exactly one worker is alive; frames, index and configuration are unchanged |
| `AnimSurface.PauseResume` | app/src/main/java/com/demo/AnimSurfaceView.java:212-218 | `pause` and `resume` change only `isPaused`; both are idempotent; pause then resume keeps the frame position |
| `AnimSurface.DestroyOnce` | app/src/main/java/com/demo/AnimSurfaceView.java:220-228 | `destroy` clears `shouldDraw`, sets `isPaused` and ends the worker (one `onStop` when a callback is set) if there is one; a second `destroy` changes nothing; afterwards no worker is alive; a later `start` launches a fresh worker |
| `AnimSurface.ConfigureKeepsIndex` | app/src/main/java/com/demo/AnimSurfaceView.java:98-103 | id 0 and the current id change nothing; any other id replaces both the id and the frame array; `imgIndex` and the worker are never touched |
| `AnimSurface.SurfaceReadyStartsIffAutoStart` | app/src/main/java/com/demo/AnimSurfaceView.java:105-111 | `surfaceCreated` is `start` when `autoStart` is set and otherwise changes nothing |
| `AnimSurface.ShorterArrayRestartsAtZero` | app/src/main/java/com/demo/AnimSurfaceView.java:98-103 | after a switch to an array no longer than `imgIndex`, the index is kept, and the next step with a canvas draws position 0 and leaves `imgIndex` at 1 |
| `AnimSurface.AnimSurfaceView.constructor` | app/src/main/java/com/demo/AnimSurfaceView.java:61-92 | the view starts in the state `init` builds from its attributes, and satisfies the invariant |
| `AnimSurface.AnimSurfaceView.SetAnimCallback` | app/src/main/java/com/demo/AnimSurfaceView.java:94-96 | registers or clears the callback and changes nothing else |
| `AnimSurface.AnimSurfaceView.SetImgArrayRes` | app/src/main/java/com/demo/AnimSurfaceView.java:98-103 | follows `Configured` with the resolved array and keeps the invariant |
| `AnimSurface.AnimSurfaceView.Start` | app/src/main/java/com/demo/AnimSurfaceView.java:202-210 | follows `Started` and keeps the invariant |
| `AnimSurface.AnimSurfaceView.Pause` | app/src/main/java/com/demo/AnimSurfaceView.java:212-214 | follows `Paused`; only `isPaused` may change |
| `AnimSurface.AnimSurfaceView.Resume` | app/src/main/java/com/demo/AnimSurfaceView.java:216-218 | follows `Resumed`; only `isPaused` may change |
| `AnimSurface.AnimSurfaceView.Destroy` | app/src/main/java/com/demo/AnimSurfaceView.java:220-228 | follows `Destroyed` and keeps the invariant |
| `AnimSurface.AnimSurfaceView.SurfaceCreated` | app/src/main/java/com/demo/AnimSurfaceView.java:105-111 | follows `SurfaceReady`: starts only with `autoStart` |
| `AnimSurface.AnimSurfaceView.SurfaceDestroyed` | app/src/main/java/com/demo/AnimSurfaceView.java:118-122 | the same transition as `destroy` |
| `AnimSurface.AnimSurfaceView.Draw` | app/src/main/java/com/demo/AnimSurfaceView.java:163-200 | the outcome and the new `imgIndex` are those of `DrawStep`; the rectangles are updated to the bitmap and view sizes exactly when a frame is drawn; a decode failure adds one never-posted canvas |
| `AnimSurface.AnimSurfaceView.Tick` | app/src/main/java/com/demo/AnimSurfaceView.java:130-153 | one pass of the loop: nothing changes while paused; otherwise it performs `DrawStep`, takes the drawn frame's rectangles (keeping the old ones when nothing was drawn) and adds one unposted canvas on a decode failure; the sleep is `SleepTime` of the narrowed elapsed time |
| `AnimSurface.AnimSurfaceView.Run` | app/src/main/java/com/demo/AnimSurfaceView.java:130-153 | the loop over a trace of iterations produces exactly the outcomes, sleeps and final `imgIndex` of `Simulate`, adds `Unposted(outs)` to the unposted canvases, and ends with the rectangles of the last drawn frame (`FinalRects`) |

## Left out

- Threads. The worker is the flag `hasWorker`, and one loop pass is an
  explicit `Tick`. The model assumes the worker's first and last actions happen
  at once, without control calls in between:
  - `onStart` happens when the worker is created in `start`;
  - the exit of the `while (shouldDraw)` loop and `onStop` happen inside
    `destroy` (the interrupt wakes the worker, which sees `shouldDraw` false).

  So the model does not capture two things. First, the race in which `start`
  runs after `destroy` but before the old thread has left its loop, which
  leaves two threads drawing. Second, a worker that sees a stale flag for one
  more iteration. Flag visibility between threads is not modelled.
- `Thread.sleep` and `interrupt`. The model computes the sleep and does not
  perform it.
- `System.currentTimeMillis`. The elapsed milliseconds of an iteration are a
  parameter.
- Glide decoding in `loadBitmap`. The decoder's result is a parameter
  (`Option<Bitmap>`), because it is a foreign library call.
- Paint and canvas compositing: the PorterDuff clear, `drawBitmap` and the
  lock/unlock calls themselves. Only the rectangle updates are kept.
  Lock/unlock pairing is not proved. The decode-failure path leaves the canvas
  locked: it is only counted, in `unposted`.
- `TypedArray` attribute parsing and `getImgResArray`. The attributes are an
  `Attributes` value and the lookup is the function `resources`. A missing
  resource, which makes Android throw, is not modelled.
- `surfaceChanged`. It only logs.
- Logging (`Log.e`, `printStackTrace`).
- The `imgResArray == null` test in `draw`. The array is never null after
  `init`, so only the empty case is modelled.
- `MainActivity.java`. It only wires buttons to `start`, `pause`, `resume`
  and `setImgArrayRes`.
- Canvas availability. Whether `lockCanvas` hands out a canvas is a free
  input of each iteration. It does not depend on an earlier canvas that was
  never posted, although Android refuses a second lock while one is held, so
  `lockCanvas` would then return null.
- `Playback.DecodeFailureScenario`: the trace assumes `lockCanvas` succeeds
  again after the decode failure left a canvas unposted. The model does not
  constrain this, so the "draw `c`, then `a`" part holds only under that
  assumption.
- `Playback.DrawStep`: does not record the width and height the decoder is
  asked for. Only the destination rectangle carries the view size.
- `Playback.RunCycles`: states the cyclic order one iteration at a time.
  `Playback.RunPositions` states it for all iterations, in terms of `Advance`.
