/** The capture session: the viewfinder / mosaic state machine driven by the shutter button,
    the dispatch of camera frames to the preview renderer and the stitching engine, and the
    routing of the low-resolution and high-resolution finalizations to the main handler and
    to storage.

    Calls into collaborators (renderer, stitching engine, camera texture, handler, storage)
    are recorded as events of a ghost trace. The trace is held to `Conforms`, which says in
    which state each collaborator call may happen; every method keeps it. */
module Capture {
  import opened Wrappers
  import opened JavaInt
  import opened FinalMosaic
  import opened Sweep

  datatype CaptureState = Viewfinder | Mosaic

  /** The state the shutter button moves to. */
  function Toggled(s: CaptureState): (t: CaptureState)
    ensures t != s
  {
    if s == Mosaic then Viewfinder else Mosaic
  }

  /** Messages of the main handler, `MSG_LOW_RES_FINAL_MOSAIC_READY` (1) to
      `MSG_CLEAR_SCREEN_DELAY` (4). */
  datatype Message = LowResFinalMosaicReady | GenerateFinalMosaicError | ResetToPreview | ClearScreenDelay

  /** A content URI handed out by the media store. */
  datatype Uri = Uri(id: nat)

  /** One call the session makes into a collaborator. */
  datatype Event =
    | PreviewConfigured              // renderer created, frame listener set on the camera texture
    | FrameTaskPosted                // the frame-available runnable put onto the UI thread
    | ShowPreviewFrameSync           // renderer: first frame, synchronously
    | ShowPreviewFrame               // renderer: preview frame
    | AlignFrameSync                 // renderer: alignment overlay, synchronously
    | ProcessFrame                   // stitching engine: take the current frame
    | SetProgressListener(installed: bool)
    | DetachFrameListener            // camera texture: frame listener set to null
    | LowResWorkerStarted            // the thread that runs the low-resolution finalization
    | HighResWorkerStarted           // the thread that runs the high-resolution finalization
    | CreateMosaic(highRes: bool)    // stitching engine
    | GetFinalMosaic                 // stitching engine: read the NV21 buffer
    | Posted(msg: Message)           // main handler
    | SavePanoramaCalled(data: Option<seq<Int8>>, width: Int32, height: Int32, orientation: int)
    | WriteFile(time: int, contents: seq<Int8>)
    | SaveExif(succeeded: bool)
    | AddImage(time: int, imageOrientation: int, imageWidth: Int32, imageHeight: Int32)
    | BroadcastNewPicture(uri: Uri)
    | ClearKeepScreenOn

  /** Whether this session's progress listener is installed after the calls `t`: what the
      last call that set a progress listener installed, and none before any such call. */
  ghost function ListenerInstalled(t: seq<Event>): bool
    decreases |t|
  {
    if t == [] then false
    else if t[|t| - 1].SetProgressListener? then t[|t| - 1].installed
    else ListenerInstalled(t[..|t| - 1])
  }

  /** The part of the session's state that decides which collaborator calls may happen next:
      whether the progress listener is installed, whether the GL root view is visible,
      whether the preview renderer and camera texture exist, and the last call made. */
  datatype Phase = Phase(listenerInstalled: bool, rootVisible: bool, configured: bool, last: Option<Event>)

  /** The phase after the call `e`: only setting a progress listener changes the listener,
      only showing the first frame makes the root view visible (nothing hides it), and only
      configuring the preview creates the renderer. */
  function Step(p: Phase, e: Event): Phase {
    Phase(if e.SetProgressListener? then e.installed else p.listenerInstalled,
          p.rootVisible || e == ShowPreviewFrameSync,
          p.configured || e == PreviewConfigured,
          Some(e))
  }

  /** When a call `e` may happen in phase `p`. Calls not listed may happen at any time. */
  predicate Allowed(p: Phase, e: Event) {
    match e
    case ShowPreviewFrameSync => p.configured && !p.rootVisible
    case ShowPreviewFrame => p.configured && p.rootVisible && !p.listenerInstalled
    case AlignFrameSync => p.configured && p.rootVisible && p.listenerInstalled
    case ProcessFrame => p.last == Some(AlignFrameSync) && p.rootVisible && p.listenerInstalled
    case LowResWorkerStarted => p.last == Some(DetachFrameListener) && !p.listenerInstalled
    case _ => true
  }

  /** The phase of a new session whose root view starts out `initiallyVisible`. */
  function Initial(initiallyVisible: bool): Phase {
    Phase(false, initiallyVisible, false, None)
  }

  /** Every call of `t` was allowed when it happened: `ps[i]` is the phase before the call
      `t[i]`, starting from the initial phase, and each call moves to the next phase. */
  ghost predicate Conforms(initiallyVisible: bool, t: seq<Event>, ps: seq<Phase>) {
    && |ps| == |t| + 1
    && ps[0] == Initial(initiallyVisible)
    && forall i :: 0 <= i < |t| ==> Allowed(ps[i], t[i]) && ps[i + 1] == Step(ps[i], t[i])
  }

  /** The stitching engine is asked for a mosaic, and its buffer is read only after a
      successful `createMosaic`. */
  function EngineCalls(highRes: bool, code: ReturnCode): (t: seq<Event>)
    ensures |t| > 0 && t[0] == CreateMosaic(highRes)
    ensures GetFinalMosaic in t <==> code.Ok?
  {
    [CreateMosaic(highRes)] + (if code.Ok? then [GetFinalMosaic] else [])
  }

  /** The phase before call `k` of a conforming trace is what the calls before it say
      directly: the listener is what the last listener call installed, the root view is
      visible exactly when it was from the start or the first frame was shown, the preview
      is configured exactly when it was configured once, and the last call is call `k - 1`. */
  lemma {:induction false} PhaseOfPrefix(initiallyVisible: bool, t: seq<Event>, ps: seq<Phase>, k: nat)
    requires Conforms(initiallyVisible, t, ps) && k <= |t|
    ensures ps[k].listenerInstalled == ListenerInstalled(t[..k])
    ensures ps[k].rootVisible == (initiallyVisible || ShowPreviewFrameSync in t[..k])
    ensures ps[k].configured == (PreviewConfigured in t[..k])
    ensures ps[k].last == (if k == 0 then None else Some(t[k - 1]))
  {
    if k > 0 {
      PhaseOfPrefix(initiallyVisible, t, ps, k - 1);
      assert t[..k] == t[..k - 1] + [t[k - 1]];
      assert t[..k][..k - 1] == t[..k - 1];
    }
  }

  /** A call that may happen in any phase and changes nothing `Allowed` looks at but the
      last call. */
  predicate Neutral(e: Event) {
    !(|| e.PreviewConfigured? || e.ShowPreviewFrameSync? || e.ShowPreviewFrame? || e.AlignFrameSync?
      || e.ProcessFrame? || e.SetProgressListener? || e.LowResWorkerStarted?)
  }

  /** `processFrame` reaches the stitching engine only right after the alignment overlay was
      drawn, while the progress listener is installed (the session is capturing) and the root
      view is visible. */
  lemma ProcessFrameOnlyWhileCapturing(initiallyVisible: bool, t: seq<Event>, ps: seq<Phase>, i: nat)
    requires Conforms(initiallyVisible, t, ps)
    requires i < |t| && t[i] == ProcessFrame
    ensures i > 0 && t[i - 1] == AlignFrameSync
    ensures ListenerInstalled(t[..i]) && (initiallyVisible || ShowPreviewFrameSync in t[..i])
  {
    assert Allowed(ps[i], t[i]);
    PhaseOfPrefix(initiallyVisible, t, ps, i);
  }

  /** The first frame is shown synchronously at most once in a session, and never when the
      root view was visible from the start. */
  lemma FirstFrameShownOnce(initiallyVisible: bool, t: seq<Event>, ps: seq<Phase>, i: nat, j: nat)
    requires Conforms(initiallyVisible, t, ps)
    requires i < j < |t| && t[i] == ShowPreviewFrameSync
    ensures !initiallyVisible
    ensures t[j] != ShowPreviewFrameSync
  {
    assert Allowed(ps[i], t[i]);
    PhaseOfPrefix(initiallyVisible, t, ps, i);
    assert Allowed(ps[j], t[j]);
    PhaseOfPrefix(initiallyVisible, t, ps, j);
    assert t[..j][i] == ShowPreviewFrameSync;
  }

  /** A low-resolution finalization is only started right after a stop detached the frame
      listener, with the progress listener removed. */
  lemma FinalizationOnlyAfterStop(initiallyVisible: bool, t: seq<Event>, ps: seq<Phase>, i: nat)
    requires Conforms(initiallyVisible, t, ps)
    requires i < |t| && t[i] == LowResWorkerStarted
    ensures i > 0 && t[i - 1] == DetachFrameListener && !ListenerInstalled(t[..i])
  {
    assert Allowed(ps[i], t[i]);
    PhaseOfPrefix(initiallyVisible, t, ps, i);
  }

  /** The panorama capture session (`MosaicProxy`). */
  class MosaicProxy {
    /** The camera's view angles, read once at construction. */
    const horizontalViewAngle: real
    const verticalViewAngle: real

    var captureState: CaptureState
    var cancelComputation: bool
    var timeTaken: int
    /** Whether the GL root view is `VISIBLE`. */
    var rootVisible: bool
    /** Whether this session's progress listener is set on the stitching engine. */
    var progressListenerInstalled: bool
    /** Whether the preview renderer and the camera texture exist. */
    var previewConfigured: bool
    /** Whether the camera texture's frame-available listener is this session. */
    var frameListenerAttached: bool
    /** The main handler's message queue. */
    var inbox: seq<Message>

    ghost const rootInitiallyVisible: bool
    /** Every collaborator call so far, in order. */
    ghost var trace: seq<Event>
    /** The phase before each of those calls and, last, the phase they leave the session in. */
    ghost var phases: seq<Phase>
    ghost var phase: Phase
    /** Frame runnables posted to the UI thread and not yet run. */
    ghost var pendingFrameTasks: nat
    /** Finalization threads started and not yet run. */
    ghost var lowResWorkers: nat
    ghost var highResWorkers: nat

    ghost predicate Valid()
      reads this
    {
      && (captureState == Mosaic <==> progressListenerInstalled)
      && Conforms(rootInitiallyVisible, trace, phases) && phase == phases[|trace|]
      && progressListenerInstalled == phase.listenerInstalled
      && rootVisible == phase.rootVisible
      && previewConfigured == phase.configured
      && (frameListenerAttached ==> previewConfigured)
      && (pendingFrameTasks > 0 ==> previewConfigured)
    }

    constructor (horizontalViewAngle: real, verticalViewAngle: real, rootInitiallyVisible: bool)
      ensures Valid()
      ensures this.horizontalViewAngle == horizontalViewAngle && this.verticalViewAngle == verticalViewAngle
      ensures this.rootInitiallyVisible == rootInitiallyVisible && rootVisible == rootInitiallyVisible
      ensures captureState == Viewfinder && !cancelComputation && timeTaken == 0
      ensures !progressListenerInstalled && !previewConfigured && !frameListenerAttached
      ensures inbox == [] && trace == []
      ensures pendingFrameTasks == 0 && lowResWorkers == 0 && highResWorkers == 0
    {
      this.horizontalViewAngle := horizontalViewAngle;
      this.verticalViewAngle := verticalViewAngle;
      this.rootInitiallyVisible := rootInitiallyVisible;
      rootVisible := rootInitiallyVisible;
      captureState := Viewfinder;
      cancelComputation := false;
      timeTaken := 0;
      progressListenerInstalled := false;
      previewConfigured := false;
      frameListenerAttached := false;
      inbox := [];
      trace := [];
      phase := Initial(rootInitiallyVisible);
      phases := [phase];
      pendingFrameTasks, lowResWorkers, highResWorkers := 0, 0, 0;
    }

    /** Records one collaborator call, which must be allowed in the current phase. */
    ghost method Emit(e: Event)
      requires Conforms(rootInitiallyVisible, trace, phases) && phase == phases[|trace|] && Allowed(phase, e)
      modifies this`trace, this`phases, this`phase
      ensures trace == old(trace) + [e] && phase == Step(old(phase), e) && phases == old(phases) + [phase]
      ensures Conforms(rootInitiallyVisible, trace, phases) && phase == phases[|trace|]
    {
      trace := trace + [e];
      phase := Step(phase, e);
      phases := phases + [phase];
    }

    /** Records calls that may happen in any phase and change neither the listener, nor the
        root view's visibility, nor the configuration. */
    ghost method EmitNeutral(es: seq<Event>)
      requires Conforms(rootInitiallyVisible, trace, phases) && phase == phases[|trace|]
      requires forall k :: 0 <= k < |es| ==> Neutral(es[k])
      modifies this`trace, this`phases, this`phase
      ensures trace == old(trace) + es
      ensures Conforms(rootInitiallyVisible, trace, phases) && phase == phases[|trace|]
      ensures phase.listenerInstalled == old(phase).listenerInstalled
      ensures phase.rootVisible == old(phase).rootVisible && phase.configured == old(phase).configured
      ensures phase.last == if es == [] then old(phase).last else Some(es[|es| - 1])
    {
      var i := 0;
      while i < |es|
        invariant 0 <= i <= |es|
        invariant trace == old(trace) + es[..i]
        invariant Conforms(rootInitiallyVisible, trace, phases) && phase == phases[|trace|]
        invariant phase.listenerInstalled == old(phase).listenerInstalled
        invariant phase.rootVisible == old(phase).rootVisible && phase.configured == old(phase).configured
        invariant phase.last == if i == 0 then old(phase).last else Some(es[i - 1])
      {
        assert Neutral(es[i]);
        Emit(es[i]);
        assert es[..i + 1] == es[..i] + [es[i]];
        i := i + 1;
      }
      assert es[..i] == es;
    }

    /** The surface texture became available: the preview renderer is created and this
        session becomes the camera texture's frame listener. */
    method OnSurfaceTextureAvailable()
      requires Valid()
      modifies this`previewConfigured, this`frameListenerAttached, this`trace, this`phases, this`phase
      ensures Valid()
      ensures previewConfigured && frameListenerAttached
      ensures trace == old(trace) + [PreviewConfigured]
    {
      Emit(PreviewConfigured);
      previewConfigured := true;
      frameListenerAttached := true;
    }

    /** A new camera frame: the dispatch is posted to the UI thread and nothing else happens.
        The camera texture calls only the listener attached to it. */
    method OnFrameAvailable()
      requires Valid() && frameListenerAttached
      modifies this`trace, this`phases, this`phase, this`pendingFrameTasks
      ensures Valid()
      ensures trace == old(trace) + [FrameTaskPosted]
      ensures pendingFrameTasks == old(pendingFrameTasks) + 1
    {
      EmitNeutral([FrameTaskPosted]);
      pendingFrameTasks := pendingFrameTasks + 1;
    }

    /** The frame-available runnable, on the UI thread. Exactly one of three things happens:
        the first frame is shown and the root view made visible; or, in the viewfinder, the
        frame is previewed; or, while capturing, the alignment overlay is drawn and then the
        stitching engine processes the frame. */
    method RunFrameTask()
      requires Valid() && pendingFrameTasks > 0
      modifies this`rootVisible, this`trace, this`phases, this`phase, this`pendingFrameTasks
      ensures Valid()
      ensures rootVisible
      ensures pendingFrameTasks == old(pendingFrameTasks) - 1
      ensures !old(rootVisible) ==> trace == old(trace) + [ShowPreviewFrameSync]
      ensures old(rootVisible) && captureState == Viewfinder ==> trace == old(trace) + [ShowPreviewFrame]
      ensures old(rootVisible) && captureState == Mosaic ==> trace == old(trace) + [AlignFrameSync] + [ProcessFrame]
    {
      pendingFrameTasks := pendingFrameTasks - 1;
      if !rootVisible {
        Emit(ShowPreviewFrameSync);
        rootVisible := true;
      } else {
        if captureState == Viewfinder {
          Emit(ShowPreviewFrame);
        } else {
          Emit(AlignFrameSync);
          Emit(ProcessFrame);
        }
      }
    }

    /** The shutter button: stops a running capture, otherwise starts one. */
    method OnShutterButtonClicked(now: int)
      requires Valid()
      requires captureState == Mosaic ==> previewConfigured
      modifies this`captureState, this`cancelComputation, this`timeTaken, this`progressListenerInstalled,
               this`frameListenerAttached, this`trace, this`phases, this`phase, this`lowResWorkers
      ensures Valid()
      ensures captureState == Toggled(old(captureState))
      ensures old(captureState) == Mosaic ==>
                && trace == old(trace) + [SetProgressListener(false)] + [DetachFrameListener] + [LowResWorkerStarted]
                && lowResWorkers == old(lowResWorkers) + 1
                && !frameListenerAttached
                && timeTaken == old(timeTaken) && cancelComputation == old(cancelComputation)
      ensures old(captureState) == Viewfinder ==>
                && trace == old(trace) + [SetProgressListener(true)]
                && lowResWorkers == old(lowResWorkers)
                && frameListenerAttached == old(frameListenerAttached)
                && timeTaken == now && !cancelComputation
    {
      if captureState == Mosaic {
        StopCapture(false);
      } else {
        StartCapture(now);
      }
    }

    /** Starts a capture at time `now`. There is no guard: called while capturing, it resets
        the fields and installs a fresh progress listener again. */
    method StartCapture(now: int)
      requires Valid()
      modifies this`captureState, this`cancelComputation, this`timeTaken, this`progressListenerInstalled, this`trace, this`phases, this`phase
      ensures Valid()
      ensures captureState == Mosaic && progressListenerInstalled
      ensures !cancelComputation && timeTaken == now
      ensures trace == old(trace) + [SetProgressListener(true)]
    {
      cancelComputation := false;
      timeTaken := now;
      captureState := Mosaic;
      Emit(SetProgressListener(true));
      progressListenerInstalled := true;
    }

    /** Stops a capture: back to the viewfinder, the progress listener removed and the frame
        listener detached; unless `aborted`, a thread is started for the low-resolution
        finalization. The camera texture must exist. */
    method StopCapture(aborted: bool)
      requires Valid() && previewConfigured
      modifies this`captureState, this`progressListenerInstalled, this`frameListenerAttached, this`trace, this`phases, this`phase,
               this`lowResWorkers
      ensures Valid()
      ensures captureState == Viewfinder && !progressListenerInstalled && !frameListenerAttached
      ensures aborted ==> trace == old(trace) + [SetProgressListener(false)] + [DetachFrameListener]
      ensures !aborted ==>
                trace == old(trace) + [SetProgressListener(false)] + [DetachFrameListener] + [LowResWorkerStarted]
      ensures lowResWorkers == old(lowResWorkers) + (if aborted then 0 else 1)
    {
      captureState := Viewfinder;
      progressListenerInstalled := false;
      Emit(SetProgressListener(false));
      frameListenerAttached := false;
      Emit(DetachFrameListener);
      if !aborted {
        lowResWorkers := lowResWorkers + 1;
        Emit(LowResWorkerStarted);
      }
    }

    /** The progress listener's callback. It changes no state: a complete sweep is only
        logged (`stopLogged`), and otherwise the panning rates in degrees are computed for a
        progress display that does not exist. */
    method OnProgress(isFinished: bool, panningRateX: real, panningRateY: real,
                      progressX: real, progressY: real) returns (stopLogged: bool)
      ensures stopLogged == SweepComplete(isFinished, progressX, progressY, horizontalViewAngle, verticalViewAngle)
    {
      var accumulatedHorizontalAngle := progressX * horizontalViewAngle;
      var accumulatedVerticalAngle := progressY * verticalViewAngle;
      if isFinished || Abs(accumulatedHorizontalAngle) >= SWEEP_LIMIT || Abs(accumulatedVerticalAngle) >= SWEEP_LIMIT {
        stopLogged := true;
      } else {
        stopLogged := false;
      }
    }

    /** `generateFinalMosaic(highRes)`: asks the engine for a mosaic and, after success, its
        buffer; the outcome is the pure classification of what the engine returned. */
    method GenerateFinalMosaicFrom(highRes: bool, code: ReturnCode, nv21: Option<seq<Int8>>,
                                   compress: Compressor, closeFails: bool) returns (jpeg: Option<MosaicJpeg>)
      requires Valid() && Decodable(code, nv21)
      modifies this`trace, this`phases, this`phase
      ensures Valid()
      ensures jpeg == GenerateFinalMosaic(code, nv21, compress, closeFails)
      ensures trace == old(trace) + EngineCalls(highRes, code)
    {
      EmitNeutral(EngineCalls(highRes, code));
      jpeg := GenerateFinalMosaic(code, nv21, compress, closeFails);
    }

    /** Posts `msg` to the main handler. */
    method Post(msg: Message)
      requires Valid()
      modifies this`inbox, this`trace, this`phases, this`phase
      ensures Valid()
      ensures inbox == old(inbox) + [msg] && trace == old(trace) + [Posted(msg)]
    {
      EmitNeutral([Posted(msg)]);
      inbox := inbox + [msg];
    }

    /** The thread started by `StopCapture(false)`: a valid low-resolution mosaic announces
        itself to the handler, anything else asks for a reset to the preview. */
    method RunLowResWorker(code: ReturnCode, nv21: Option<seq<Int8>>, compress: Compressor, closeFails: bool)
      requires Valid() && lowResWorkers > 0 && Decodable(code, nv21)
      modifies this`inbox, this`trace, this`phases, this`phase, this`lowResWorkers
      ensures Valid()
      ensures lowResWorkers == old(lowResWorkers) - 1
      ensures var jpeg := GenerateFinalMosaic(code, nv21, compress, closeFails);
              var msg := if jpeg.Some? && jpeg.value.isValid then LowResFinalMosaicReady else ResetToPreview;
              inbox == old(inbox) + [msg] && trace == old(trace) + EngineCalls(false, code) + [Posted(msg)]
    {
      lowResWorkers := lowResWorkers - 1;
      var jpeg := GenerateFinalMosaicFrom(false, code, nv21, compress, closeFails);
      var msg := if jpeg.Some? && jpeg.value.isValid then LowResFinalMosaicReady else ResetToPreview;
      Post(msg);
    }

    /** The main handler takes the next message: a ready low-resolution mosaic starts the
        high-resolution save; the error and reset messages do nothing; the screen-delay
        message clears the keep-screen-on flag. */
    method HandleMessage() returns (msg: Message)
      requires Valid() && inbox != []
      modifies this`inbox, this`trace, this`phases, this`phase, this`highResWorkers
      ensures Valid()
      ensures msg == old(inbox[0]) && inbox == old(inbox[1..])
      ensures msg == LowResFinalMosaicReady ==>
                trace == old(trace) + [HighResWorkerStarted] && highResWorkers == old(highResWorkers) + 1
      ensures msg == ClearScreenDelay ==>
                trace == old(trace) + [ClearKeepScreenOn] && highResWorkers == old(highResWorkers)
      ensures msg == GenerateFinalMosaicError || msg == ResetToPreview ==>
                trace == old(trace) && highResWorkers == old(highResWorkers)
    {
      msg := inbox[0];
      inbox := inbox[1..];
      match msg
      case LowResFinalMosaicReady =>
        SaveHighResMosaic();
      case GenerateFinalMosaicError =>
      case ResetToPreview =>
      case ClearScreenDelay =>
        EmitNeutral([ClearKeepScreenOn]);
    }

    /** Starts the thread that builds and saves the high-resolution mosaic. */
    method SaveHighResMosaic()
      requires Valid()
      modifies this`trace, this`phases, this`phase, this`highResWorkers
      ensures Valid()
      ensures trace == old(trace) + [HighResWorkerStarted]
      ensures highResWorkers == old(highResWorkers) + 1
    {
      EmitNeutral([HighResWorkerStarted]);
      highResWorkers := highResWorkers + 1;
    }

    /** The high-resolution thread: a cancelled mosaic only asks for a reset to the preview;
        an invalid one only reports the error; a valid one is saved exactly once, with its own
        data, width and height and orientation 0, a stored picture is broadcast, and then the
        reset to the preview is asked for. */
    method RunHighResWorker(code: ReturnCode, nv21: Option<seq<Int8>>, compress: Compressor,
                            closeFails: bool, exifFails: bool, stored: Option<Uri>)
      returns (ghost jpeg: Option<MosaicJpeg>)
      requires Valid() && highResWorkers > 0 && Decodable(code, nv21)
      modifies this`inbox, this`trace, this`phases, this`phase, this`highResWorkers
      ensures Valid()
      ensures highResWorkers == old(highResWorkers) - 1
      ensures jpeg == GenerateFinalMosaic(code, nv21, compress, closeFails)
      ensures jpeg.None? ==>
                inbox == old(inbox) + [ResetToPreview]
                && trace == old(trace) + EngineCalls(true, code) + [Posted(ResetToPreview)]
      ensures jpeg.Some? && !jpeg.value.isValid ==>
                inbox == old(inbox) + [GenerateFinalMosaicError]
                && trace == old(trace) + EngineCalls(true, code) + [Posted(GenerateFinalMosaicError)]
      ensures jpeg.Some? && jpeg.value.isValid ==>
                var j := jpeg.value;
                inbox == old(inbox) + [ResetToPreview]
                && trace == old(trace) + EngineCalls(true, code)
                            + [SavePanoramaCalled(j.data, j.width, j.height, 0),
                               WriteFile(timeTaken, j.data.value), SaveExif(!exifFails),
                               AddImage(timeTaken, 0, j.width, j.height)]
                            + (if stored.Some? then [BroadcastNewPicture(stored.value)] else [])
                            + [Posted(ResetToPreview)]
    {
      highResWorkers := highResWorkers - 1;
      var result := GenerateFinalMosaicFrom(true, code, nv21, compress, closeFails);
      jpeg := result;
      ReportHighResMosaic(result, exifFails, stored);
    }

    /** What the high-resolution thread does with the finalization's outcome. */
    method ReportHighResMosaic(jpeg: Option<MosaicJpeg>, exifFails: bool, stored: Option<Uri>)
      requires Valid() && (jpeg.Some? ==> WellFormed(jpeg.value))
      modifies this`inbox, this`trace, this`phases, this`phase
      ensures Valid()
      ensures jpeg.None? ==> inbox == old(inbox) + [ResetToPreview] && trace == old(trace) + [Posted(ResetToPreview)]
      ensures jpeg.Some? && !jpeg.value.isValid ==>
                inbox == old(inbox) + [GenerateFinalMosaicError]
                && trace == old(trace) + [Posted(GenerateFinalMosaicError)]
      ensures jpeg.Some? && jpeg.value.isValid ==>
                var j := jpeg.value;
                inbox == old(inbox) + [ResetToPreview]
                && trace == old(trace)
                            + [SavePanoramaCalled(j.data, j.width, j.height, 0),
                               WriteFile(timeTaken, j.data.value), SaveExif(!exifFails),
                               AddImage(timeTaken, 0, j.width, j.height)]
                            + (if stored.Some? then [BroadcastNewPicture(stored.value)] else [])
                            + [Posted(ResetToPreview)]
    {
      if jpeg.None? {
        Post(ResetToPreview);
      } else if !jpeg.value.isValid {
        Post(GenerateFinalMosaicError);
      } else {
        var orientation := 0;
        var uri := SavePanorama(jpeg.value.data, jpeg.value.width, jpeg.value.height, orientation,
                                exifFails, stored);
        EmitNeutral(if uri.Some? then [BroadcastNewPicture(uri.value)] else []);
        Post(ResetToPreview);
      }
    }

    /** Saves a compressed panorama named after `timeTaken`. Without data nothing is stored
        and there is no URI. With data the file is written, its EXIF attributes are saved (a
        failure there is only logged), and the media store's answer is the result. */
    method SavePanorama(data: Option<seq<Int8>>, width: Int32, height: Int32, orientation: int,
                        exifFails: bool, stored: Option<Uri>) returns (uri: Option<Uri>)
      requires Valid()
      modifies this`trace, this`phases, this`phase
      ensures Valid()
      ensures data.None? ==> uri.None? && trace == old(trace) + [SavePanoramaCalled(data, width, height, orientation)]
      ensures data.Some? ==>
                uri == stored
                && trace == old(trace) + [SavePanoramaCalled(data, width, height, orientation),
                                          WriteFile(timeTaken, data.value), SaveExif(!exifFails),
                                          AddImage(timeTaken, orientation, width, height)]
    {
      if data.Some? {
        EmitNeutral([SavePanoramaCalled(data, width, height, orientation), WriteFile(timeTaken, data.value),
                     SaveExif(!exifFails), AddImage(timeTaken, orientation, width, height)]);
        uri := stored;
      } else {
        EmitNeutral([SavePanoramaCalled(data, width, height, orientation)]);
        uri := None;
      }
    }
  }

  /** Two presses of the shutter from the viewfinder start and then stop a capture: the
      session is back in the viewfinder, with one low-resolution finalization started. */
  method ShutterTwiceFromViewfinder(p: MosaicProxy, now: int, later: int)
    requires p.Valid() && p.captureState == Viewfinder && p.previewConfigured
    modifies p
    ensures p.Valid() && p.captureState == Viewfinder
    ensures p.lowResWorkers == old(p.lowResWorkers) + 1 && p.timeTaken == now
    ensures p.trace == old(p.trace) + [SetProgressListener(true)] + [SetProgressListener(false)]
                                    + [DetachFrameListener] + [LowResWorkerStarted]
  {
    p.OnShutterButtonClicked(now);
    p.OnShutterButtonClicked(later);
  }
}
