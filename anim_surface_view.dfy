/** The playback controller of AnimSurfaceView.java as a sequential state
    machine. The view's fields are the fields of class `AnimSurfaceView`; the
    worker thread is the flag `hasWorker` (the `drawThread` handle is set), one
    pass of its loop is `Tick`, and the `onStart` / `onStop` callbacks are
    entries of the ghost lifecycle log. The datatype `ViewState` is the view's
    abstract value, and the functions on it below specify the control methods,
    which are proved to follow them. */
module AnimSurface {
  import opened Playback

  /** One entry of the worker's lifecycle: a worker thread launched or
      finished. `notified` says whether a callback was registered at that
      moment, that is, whether `onStart` (for a launch) or `onStop` (for a
      finish) was called. */
  datatype Event = Launch(notified: bool) | Finish(notified: bool)

  /** The view's styled attributes in a layout; `None` is an absent attribute. */
  datatype Attributes = Attributes(imageArray: Option<int>, autoStart: Option<bool>, interval: Option<int>)

  /** Everything the playback controller keeps. */
  datatype ViewState = ViewState(
    imgArrayRes: int,        // id of the configured image array, 0 for none
    imgResArray: seq<int>,   // the frame ids resolved from it
    imgIndex: nat,           // the next frame position to draw
    srcRect: Rect,           // mSrcRect
    destRect: Rect,          // mDestRect
    hasWorker: bool,         // drawThread != null
    hasCallback: bool,       // animCallback != null
    shouldDraw: bool,
    isPaused: bool,
    autoStart: bool,
    interval: int,
    log: seq<Event>,         // worker launches and finishes, in order
    unposted: nat)           // canvases locked and never unlocked

  // ---------------------------------------------------------------------------
  // The worker's lifecycle log
  // ---------------------------------------------------------------------------

  /** Launches and finishes alternate, starting with a launch. */
  ghost predicate Alternates(log: seq<Event>) {
    forall i :: 0 <= i < |log| ==> (log[i].Launch? <==> i % 2 == 0)
  }

  ghost function Launches(log: seq<Event>): nat {
    if log == [] then 0
    else Launches(log[..|log| - 1]) + (if log[|log| - 1].Launch? then 1 else 0)
  }

  ghost function Finishes(log: seq<Event>): nat {
    if log == [] then 0
    else Finishes(log[..|log| - 1]) + (if log[|log| - 1].Finish? then 1 else 0)
  }

  /** In an alternating log, the workers launched and not yet finished number
      0 or 1: there is never more than one worker. */
  lemma {:induction false} AtMostOneWorker(log: seq<Event>)
    requires Alternates(log)
    ensures Launches(log) - Finishes(log) == |log| % 2
  {
    if log != [] {
      var init := log[..|log| - 1];
      assert Alternates(init) by {
        forall i | 0 <= i < |init| ensures (init[i].Launch? <==> i % 2 == 0) {
          assert init[i] == log[i];
        }
      }
      AtMostOneWorker(init);
    }
  }

  lemma AppendAlternates(log: seq<Event>, e: Event)
    requires Alternates(log) && (e.Launch? <==> |log| % 2 == 0)
    ensures Alternates(log + [e])
  {
    var log' := log + [e];
    forall i | 0 <= i < |log'| ensures (log'[i].Launch? <==> i % 2 == 0) {
      if i < |log| { assert log'[i] == log[i]; }
    }
  }

  // ---------------------------------------------------------------------------
  // The controller's invariant and its transitions
  // ---------------------------------------------------------------------------

  /** What every reachable state satisfies: drawing is enabled exactly while a
      worker exists; the log alternates and ends in a launch exactly while a
      worker exists; the rectangles keep their origin at (0, 0); the interval
      is a Java `int`; and `imgIndex` stays within Java's array bound, so
      `imgIndex++` never overflows. */
  ghost predicate Inv(s: ViewState) {
    && s.shouldDraw == s.hasWorker
    && Alternates(s.log)
    && (s.hasWorker <==> |s.log| % 2 == 1)
    && s.srcRect.left == 0 && s.srcRect.top == 0
    && s.destRect.left == 0 && s.destRect.top == 0
    && IsInt32(s.interval)
    && |s.imgResArray| <= INT32_MAX
    && s.imgIndex <= INT32_MAX
  }

  /** The state `init` builds from the attributes; `resolved` is the frame
      array the image-array attribute resolves to. */
  ghost function Initial(attrs: Attributes, resolved: seq<int>): ViewState {
    var arrayRes := attrs.imageArray.GetOr(0);
    ViewState(arrayRes, if arrayRes == 0 then [0] else resolved, 0,
              Rect(0, 0, 0, 0), Rect(0, 0, 0, 0),
              false, false, false, false,
              attrs.autoStart.GetOr(false), attrs.interval.GetOr(100),
              [], 0)
  }

  ghost function Started(s: ViewState): ViewState {
    s.(shouldDraw := true, isPaused := false, hasWorker := true,
       log := if s.hasWorker then s.log else s.log + [Launch(s.hasCallback)])
  }

  ghost function Paused(s: ViewState): ViewState {
    s.(isPaused := true)
  }

  ghost function Resumed(s: ViewState): ViewState {
    s.(isPaused := false)
  }

  /** `destroy`: the worker, woken from its sleep, sees `shouldDraw` false,
      leaves its loop and finishes, calling `onStop` if a callback is set. */
  ghost function Destroyed(s: ViewState): ViewState {
    s.(shouldDraw := false, isPaused := true, hasWorker := false,
       log := if s.hasWorker then s.log + [Finish(s.hasCallback)] else s.log)
  }

  ghost function Configured(s: ViewState, id: int, resolved: seq<int>): ViewState {
    if id != 0 && s.imgArrayRes != id then s.(imgArrayRes := id, imgResArray := resolved) else s
  }

  ghost function SurfaceReady(s: ViewState): ViewState {
    if s.autoStart then Started(s) else s
  }

  ghost function WithCallback(s: ViewState, present: bool): ViewState {
    s.(hasCallback := present)
  }

  /** The frame data, its position, the configuration and the callback are
      the same in `a` and `b`. */
  ghost predicate SameFrames(a: ViewState, b: ViewState) {
    && a.imgArrayRes == b.imgArrayRes && a.imgResArray == b.imgResArray && a.imgIndex == b.imgIndex
    && a.srcRect == b.srcRect && a.destRect == b.destRect && a.unposted == b.unposted
    && a.hasCallback == b.hasCallback && a.autoStart == b.autoStart && a.interval == b.interval
  }

  // ---------------------------------------------------------------------------
  // Properties of the transitions
  // ---------------------------------------------------------------------------

  /** Without attributes the interval is 100 ms, there is no auto-start, and
      the frame array is the one-element array `[0]`, not an empty one. Every
      initial state satisfies the invariant. */
  lemma InitialDefaults(attrs: Attributes, resolved: seq<int>)
    requires IsInt32(attrs.interval.GetOr(100)) && |resolved| <= INT32_MAX
    ensures Inv(Initial(attrs, resolved))
    ensures attrs.interval.None? ==> Initial(attrs, resolved).interval == 100
    ensures attrs.autoStart.None? ==> !Initial(attrs, resolved).autoStart
    ensures attrs.imageArray.None? ==> Initial(attrs, resolved).imgResArray == [0]
    ensures var s := Initial(attrs, resolved); !s.hasWorker && !s.shouldDraw && !s.isPaused && s.imgIndex == 0
  {
  }

  /** `start` enables drawing and clears the pause; it launches a worker, and
      notifies `onStart` once, only when there is none; a second `start`
      changes nothing; afterwards exactly one worker is alive; and it leaves
      the frames and the configuration alone. */
  lemma StartOnce(s: ViewState)
    requires Inv(s)
    ensures Inv(Started(s))
    ensures Started(s).shouldDraw && !Started(s).isPaused && Started(s).hasWorker
    ensures Started(s).log == if s.hasWorker then s.log else s.log + [Launch(s.hasCallback)]
    ensures Started(Started(s)) == Started(s)
    ensures Launches(Started(s).log) - Finishes(Started(s).log) == 1
    ensures SameFrames(s, Started(s))
  {
    if !s.hasWorker {
      AppendAlternates(s.log, Launch(s.hasCallback));
    }
    AtMostOneWorker(Started(s).log);
  }

  /** `pause` and `resume` set `isPaused` and nothing else, and are idempotent;
      a pause followed by a resume returns to the running state with the same
      frame position. */
  lemma PauseResume(s: ViewState)
    requires Inv(s)
    ensures Inv(Paused(s)) && Inv(Resumed(s))
    ensures Paused(s) == s.(isPaused := true) && Resumed(s) == s.(isPaused := false)
    ensures Paused(Paused(s)) == Paused(s) && Resumed(Resumed(s)) == Resumed(s)
    ensures Resumed(Paused(s)) == Resumed(s) && Resumed(Paused(s)).imgIndex == s.imgIndex
  {
  }

  /** `destroy` disables drawing, pauses, and finishes the worker if there is
      one, notifying `onStop` once; a second `destroy` changes nothing;
      afterwards no worker is alive; and a later `start` launches a fresh
      worker. */
  lemma DestroyOnce(s: ViewState)
    requires Inv(s)
    ensures Inv(Destroyed(s))
    ensures !Destroyed(s).shouldDraw && Destroyed(s).isPaused && !Destroyed(s).hasWorker
    ensures Destroyed(s).log == if s.hasWorker then s.log + [Finish(s.hasCallback)] else s.log
    ensures Destroyed(Destroyed(s)) == Destroyed(s)
    ensures Launches(Destroyed(s).log) - Finishes(Destroyed(s).log) == 0
    ensures SameFrames(s, Destroyed(s))
    ensures Started(Destroyed(s)).log == Destroyed(s).log + [Launch(s.hasCallback)]
  {
    if s.hasWorker {
      AppendAlternates(s.log, Finish(s.hasCallback));
    }
    AtMostOneWorker(Destroyed(s).log);
  }

  /** `setImgArrayRes(id)` ignores id 0 and the id already configured;
      otherwise it replaces the id and the frame array together. It never
      moves `imgIndex` and never touches the worker. */
  lemma ConfigureKeepsIndex(s: ViewState, id: int, resolved: seq<int>)
    requires Inv(s) && |resolved| <= INT32_MAX
    ensures Inv(Configured(s, id, resolved))
    ensures (id == 0 || id == s.imgArrayRes) ==> Configured(s, id, resolved) == s
    ensures id != 0 && id != s.imgArrayRes ==>
      Configured(s, id, resolved) == s.(imgArrayRes := id, imgResArray := resolved)
    ensures Configured(s, id, resolved).imgIndex == s.imgIndex
    ensures Configured(s, id, resolved).hasWorker == s.hasWorker
    ensures Configured(s, id, resolved).log == s.log
  {
  }

  /** A created surface starts playback exactly when auto-start is set. */
  lemma SurfaceReadyStartsIffAutoStart(s: ViewState)
    requires Inv(s)
    ensures Inv(SurfaceReady(s))
    ensures s.autoStart ==> SurfaceReady(s) == Started(s)
    ensures !s.autoStart ==> SurfaceReady(s) == s
    ensures SurfaceReady(s).hasWorker <==> s.hasWorker || s.autoStart
  {
    StartOnce(s);
  }

  /** Switching to a shorter array does not move `imgIndex`; when it now lies
      past the end, the next frame drawn is the first one, not the old
      position modulo the new length. */
  lemma ShorterArrayRestartsAtZero(s: ViewState, id: int, resolved: seq<int>, bitmap: Option<Bitmap>,
                                   width: int, height: int)
    requires Inv(s) && |resolved| <= INT32_MAX && id != 0 && id != s.imgArrayRes
    requires 0 < |resolved| <= s.imgIndex
    ensures var t := Configured(s, id, resolved);
      && t.imgIndex == s.imgIndex
      && DrawStep(t.imgResArray, t.imgIndex, true, bitmap, width, height).outcome.index == 0
      && DrawStep(t.imgResArray, t.imgIndex, true, bitmap, width, height).imgIndex == 1
  {
  }

  // ---------------------------------------------------------------------------
  // The view
  // ---------------------------------------------------------------------------

  /** Every Java array has at most `Integer.MAX_VALUE` elements. */
  ghost predicate ResourcesFit(resources: int -> seq<int>) {
    forall id :: |resources(id)| <= INT32_MAX
  }

  class AnimSurfaceView {
    var imgArrayRes: int
    var imgResArray: seq<int>
    var imgIndex: nat
    var srcRect: Rect
    var destRect: Rect
    var hasWorker: bool
    var hasCallback: bool
    var shouldDraw: bool
    var isPaused: bool
    var autoStart: bool
    var interval: int
    /** The frame ids each image-array resource id resolves to. */
    const resources: int -> seq<int>
    ghost var log: seq<Event>
    ghost var unposted: nat

    ghost function State(): ViewState
      reads this
    {
      ViewState(imgArrayRes, imgResArray, imgIndex, srcRect, destRect,
                hasWorker, hasCallback, shouldDraw, isPaused, autoStart, interval,
                log, unposted)
    }

    ghost predicate Valid()
      reads this
    {
      Inv(State()) && ResourcesFit(resources)
    }

    /** The view as a layout inflates it, with `init` reading the attributes. */
    constructor (attrs: Attributes, resources: int -> seq<int>)
      requires IsInt32(attrs.interval.GetOr(100)) && ResourcesFit(resources)
      ensures Valid() && this.resources == resources
      ensures State() == Initial(attrs, resources(attrs.imageArray.GetOr(0)))
    {
      this.resources := resources;
      srcRect := Rect(0, 0, 0, 0);
      destRect := Rect(0, 0, 0, 0);
      var arrayRes := attrs.imageArray.GetOr(0);
      imgArrayRes := arrayRes;
      autoStart := attrs.autoStart.GetOr(false);
      interval := attrs.interval.GetOr(100);
      imgResArray := if arrayRes == 0 then [0] else resources(arrayRes);
      imgIndex := 0;
      hasWorker, hasCallback, shouldDraw, isPaused := false, false, false, false;
      log, unposted := [], 0;
      new;
      InitialDefaults(attrs, resources(arrayRes));
    }

    method SetAnimCallback(present: bool)
      requires Valid()
      modifies this`hasCallback
      ensures Valid()
      ensures State() == WithCallback(old(State()), present)
    {
      hasCallback := present;
    }

    method SetImgArrayRes(id: int)
      requires Valid()
      modifies this`imgArrayRes, this`imgResArray
      ensures Valid()
      ensures State() == Configured(old(State()), id, resources(id))
    {
      ConfigureKeepsIndex(State(), id, resources(id));
      if id != 0 && imgArrayRes != id {
        imgArrayRes := id;
        imgResArray := resources(id);
      }
    }

    method Start()
      requires Valid()
      modifies this`shouldDraw, this`isPaused, this`hasWorker, this`log
      ensures Valid()
      ensures State() == Started(old(State()))
    {
      StartOnce(State());
      shouldDraw := true;
      isPaused := false;
      if !hasWorker {
        hasWorker := true;
        log := log + [Launch(hasCallback)];
      }
    }

    method Pause()
      requires Valid()
      modifies this`isPaused
      ensures Valid()
      ensures State() == Paused(old(State()))
    {
      isPaused := true;
    }

    method Resume()
      requires Valid()
      modifies this`isPaused
      ensures Valid()
      ensures State() == Resumed(old(State()))
    {
      isPaused := false;
    }

    method Destroy()
      requires Valid()
      modifies this`shouldDraw, this`isPaused, this`hasWorker, this`log
      ensures Valid()
      ensures State() == Destroyed(old(State()))
    {
      DestroyOnce(State());
      shouldDraw := false;
      isPaused := true;
      if hasWorker {
        hasWorker := false;
        log := log + [Finish(hasCallback)];
      }
    }

    method SurfaceCreated()
      requires Valid()
      modifies this`shouldDraw, this`isPaused, this`hasWorker, this`log
      ensures Valid()
      ensures State() == SurfaceReady(old(State()))
    {
      if autoStart {
        Start();
      }
    }

    method SurfaceDestroyed()
      requires Valid()
      modifies this`shouldDraw, this`isPaused, this`hasWorker, this`log
      ensures Valid()
      ensures State() == Destroyed(old(State()))
    {
      Destroy();
    }

    /** `draw()`: one frame, given whether the surface handed out a canvas,
        what the decoder returned and the view's size. A decoded frame is
        drawn from the whole bitmap to the whole view; a frame that fails to
        decode leaves its canvas locked. */
    method Draw(canvas: bool, bitmap: Option<Bitmap>, width: int, height: int) returns (outcome: DrawOutcome)
      requires Valid()
      modifies this`imgIndex, this`srcRect, this`destRect, this`unposted
      ensures Valid()
      ensures Step(outcome, imgIndex) == DrawStep(imgResArray, old(imgIndex), canvas, bitmap, width, height)
      ensures outcome.Drawn? ==> srcRect == outcome.src && destRect == outcome.dest
      ensures !outcome.Drawn? ==> srcRect == old(srcRect) && destRect == old(destRect)
      ensures unposted == old(unposted) + (if outcome.DecodeFailed? then 1 else 0)
    {
      if |imgResArray| == 0 {
        return NoFrames;
      }
      if !canvas {
        return NoCanvas;
      }
      if imgIndex >= |imgResArray| {
        imgIndex := 0;
      }
      var k := imgIndex;
      imgIndex := imgIndex + 1;
      if bitmap.None? {
        unposted := unposted + 1;
        return DecodeFailed(k, imgResArray[k]);
      }
      srcRect := srcRect.(right := bitmap.value.width, bottom := bitmap.value.height);
      destRect := destRect.(right := width, bottom := height);
      outcome := Drawn(k, imgResArray[k], srcRect, destRect);
    }

    /** One pass of the worker's `while (shouldDraw)` loop: draw unless
        paused, then work out how long to sleep. */
    method Tick(it: Iteration) returns (drawn: Option<DrawOutcome>, sleep: int)
      requires Valid() && shouldDraw
      modifies this`imgIndex, this`srcRect, this`destRect, this`unposted
      ensures Valid()
      ensures isPaused ==> drawn == None && unchanged(this)
      ensures !isPaused ==>
        && drawn.Some?
        && Step(drawn.value, imgIndex) == DrawStep(imgResArray, old(imgIndex), it.canvas, it.bitmap, it.width, it.height)
        && (drawn.value.Drawn? ==> srcRect == drawn.value.src && destRect == drawn.value.dest)
        && (!drawn.value.Drawn? ==> srcRect == old(srcRect) && destRect == old(destRect))
        && unposted == old(unposted) + (if drawn.value.DecodeFailed? then 1 else 0)
      ensures sleep == SleepTime(ToInt32(it.elapsed), interval)
    {
      drawn := None;
      if !isPaused {
        var outcome := Draw(it.canvas, it.bitmap, it.width, it.height);
        drawn := Some(outcome);
      }
      var diff := ToInt32(it.elapsed);
      sleep := SleepTime(diff, interval);
    }

    /** The worker's loop over the iterations of `trace`, with no control call
        in between; `Simulate` gives what it draws and sleeps, and the lemmas
        beside it what that means. */
    method Run(trace: seq<Iteration>) returns (outs: seq<Option<DrawOutcome>>, sleeps: seq<int>)
      requires Valid() && shouldDraw
      modifies this`imgIndex, this`srcRect, this`destRect, this`unposted
      ensures Valid()
      ensures RunResult(outs, sleeps, imgIndex) == Simulate(imgResArray, isPaused, interval, old(imgIndex), trace)
      ensures unposted == old(unposted) + Unposted(outs)
      ensures (srcRect, destRect) == FinalRects(outs, (old(srcRect), old(destRect)))
    {
      ghost var start, leaked, rects := imgIndex, unposted, (srcRect, destRect);
      outs, sleeps := [], [];
      var i := 0;
      while i < |trace|
        invariant 0 <= i <= |trace|
        invariant Valid() && shouldDraw
        invariant RunResult(outs, sleeps, imgIndex) == Simulate(imgResArray, isPaused, interval, start, trace[..i])
        invariant unposted == leaked + Unposted(outs)
        invariant (srcRect, destRect) == FinalRects(outs, rects)
      {
        var drawn, sleep := Tick(trace[i]);
        assert trace[..i + 1][..i] == trace[..i];
        assert (outs + [drawn])[..|outs|] == outs;
        outs, sleeps := outs + [drawn], sleeps + [sleep];
        i := i + 1;
      }
      assert trace[..i] == trace;
    }
  }
}
