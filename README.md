# Panorama capture session (`MosaicProxy`), modelled in Dafny

`MosaicProxy` drives the panorama mode of the camera. It does three things:

- It keeps a two-state capture machine, viewfinder or mosaic. The shutter button toggles it.
- It dispatches every camera frame. A frame goes to the preview renderer, or, while capturing, to the alignment overlay and then the stitching engine.
- When a capture stops (unless it was aborted), a low-resolution finalization runs first. Only if it yields a valid mosaic does the main handler start a second, high-resolution finalization, which builds the JPEG and stores it.

The finalization reads the mosaic's size from an 8-byte trailer at the end of the engine's NV21 buffer. It then sorts the engine's answer into one of three outcomes: cancelled (`null`), invalid, or valid.

The model is split by concern:

| file | module | what it holds |
|---|---|---|
| `java_int.dfy` | `JavaInt` | Java's `byte` and `int`, and the operators the decoding uses: `<<`, `+`, `& 0xFF`, all with explicit 32-bit wrap-around. |
| `trailer.dfy` | `Trailer` | The trailer decoding exactly as the source writes it. A big-endian two's-complement reference reading. An encoder, and the round trips in both directions. |
| `final_mosaic.dfy` | `FinalMosaic` | `MosaicJpeg` and `generateFinalMosaic` as a pure function of the engine's return code, the buffer, the JPEG encoder and the stream-close outcome. |
| `sweep.dfy` | `Sweep` | The progress listener's sweep-complete test, over real numbers. |
| `capture.dfy` | `Capture` | The class `MosaicProxy`: its fields, its methods, and a ghost trace of every call it makes into a collaborator. |

Collaborators are the renderer, the stitching engine, the camera texture, the handler and storage. Each call to one becomes an `Event` appended to the ghost `trace`.

`Allowed` says in which `Phase` each call may happen. The phase records:
- whether the progress listener is installed;
- whether the root view is visible;
- whether the preview is configured;
- the last call made.

The class invariant `Valid` keeps the trace conforming and ties the fields to the phase. Every method preserves `Valid`. Every method also states the exact calls it appends, the messages it posts, and its new field values.

Inputs that come from outside the class are parameters of the methods that consume them:
- the engine's return code and buffer;
- the JPEG encoder;
- whether `close()` or the EXIF write throws;
- the media store's URI;
- the clock value.

The model follows the code, including where it surprises:
- `startCapture` has no guard. Called while capturing, it resets the fields and installs a new progress listener. It is not a no-op.
- A complete sweep is only logged. The call to `stopCapture(false)` is commented out, so `OnProgress` changes no state.
- `YuvImage` is built over the whole engine buffer, trailer included. The model passes the whole buffer to the encoder.
- `stopCapture` sets the camera texture's frame listener to `null`. Nothing on the capture path attaches it again. Only a new `onSurfaceTextureAvailable`, through `configMosaicPreview`, sets it.
- The cancellation flag is only ever set to `false`. Nothing in the class reads it.
- The handlers for the error message and the reset message do nothing. Their bodies are commented out.
- An empty or short buffer after a successful `createMosaic` is not turned into an error. The code reads the trailer without checking the length.
- Nothing limits the session to one high-resolution thread at a time. Every ready message starts one more (`highResWorkers` counts them).

## Model

| member | source | states |
|---|---|---|
| JavaInt.Wrap32 | src/org/cyanogenmod/nemesis/pano/MosaicProxy.java:429-432 | Narrowing to `int` gives a 32-bit value congruent to the exact result modulo 2^32. It is the identity on values already in range. |
| JavaInt.Shl32 | src/org/cyanogenmod/nemesis/pano/MosaicProxy.java:429-432 | `x << k` on `int`, for whole-byte distances, is congruent to x * 2^k modulo 2^32. |
| JavaInt.Add32 | src/org/cyanogenmod/nemesis/pano/MosaicProxy.java:429-432 | `a + b` on `int` is congruent to the exact sum, and equals it when the sum fits. |
| JavaInt.Unsigned8 | src/org/cyanogenmod/nemesis/pano/MosaicProxy.java:429-432 | `b & 0xFF` lies in 0..255, is congruent to `b` modulo 256, and is `b` itself for a non-negative byte. |
| JavaInt.ToInt8 | src/org/cyanogenmod/nemesis/pano/MosaicProxy.java:429-432 | The byte written for a value in 0..255 reads back as that value under `& 0xFF`. |
| JavaInt.Wrap32OfResidue | src/org/cyanogenmod/nemesis/pano/MosaicProxy.java:429-432 | Narrowing the unsigned reading of an `int` gives the `int` back. |
| JavaInt.ToInt8OfUnsigned | src/org/cyanogenmod/nemesis/pano/MosaicProxy.java:429-432 | Reading a byte as unsigned and writing it back gives the same byte. |
| JavaInt.SignedHighByteShift | src/org/cyanogenmod/nemesis/pano/MosaicProxy.java:429 | `b << 24 == (b & 0xFF) << 24` in 32-bit arithmetic, and both equal b * 2^24. |
| Trailer.UnsignedBigEndian | src/org/cyanogenmod/nemesis/pano/MosaicProxy.java:428-432 | Four bytes read big-endian as unsigned give a value in 0..2^32-1. |
| Trailer.DecodeInt32Value | src/org/cyanogenmod/nemesis/pano/MosaicProxy.java:429-432 | `DecodeInt32`, the source's shift-and-add expression over 32-bit `int`, is the big-endian two's-complement reading of the four bytes. It is also the exact sum with a signed first byte. |
| Trailer.JavaDecodeDoesNotWrap | src/org/cyanogenmod/nemesis/pano/MosaicProxy.java:429-432 | No shift or addition in the decoding leaves the `int` range. |
| Trailer.ExactIsSignedBigEndian | src/org/cyanogenmod/nemesis/pano/MosaicProxy.java:429-432 | The exact sum with a signed first byte equals the two's-complement narrowing of the unsigned reading. |
| Trailer.EncodeInt32 | src/org/cyanogenmod/nemesis/pano/MosaicProxy.java:428-432 | An `int` is written as exactly four bytes. |
| Trailer.EncodedSign | src/org/cyanogenmod/nemesis/pano/MosaicProxy.java:429-432 | An encoded `int` is negative exactly when its first byte has its high bit set. |
| Trailer.EncodingDigits | src/org/cyanogenmod/nemesis/pano/MosaicProxy.java:428-432 | The four encoded bytes are the base-256 digits of the `int` read as unsigned. |
| Trailer.DecodeEncode | src/org/cyanogenmod/nemesis/pano/MosaicProxy.java:429-432 | Decoding the encoding of any `int` gives that `int`. |
| Trailer.EncodeDecode | src/org/cyanogenmod/nemesis/pano/MosaicProxy.java:429-432 | Encoding the decoding of any four bytes gives those bytes, so the decoding is a bijection. |
| Trailer.DecodePositive | src/org/cyanogenmod/nemesis/pano/MosaicProxy.java:429-440 | A decoded value is positive exactly when the first byte's high bit is clear and not all four bytes are zero. A set high bit gives a negative value. |
| Trailer.DecodeNegative | src/org/cyanogenmod/nemesis/pano/MosaicProxy.java:429-440 | Four bytes whose first byte has its high bit set decode to a negative value. |
| Trailer.HighBitWidthIsNegative | src/org/cyanogenmod/nemesis/pano/MosaicProxy.java:428-429 | The width is negative when the first trailer byte has its high bit set. |
| Trailer.HighBitHeightIsNegative | src/org/cyanogenmod/nemesis/pano/MosaicProxy.java:428-431 | The height is negative when the fifth trailer byte has its high bit set. |
| Trailer.AppendTrailer | src/org/cyanogenmod/nemesis/pano/MosaicProxy.java:428-432 | A buffer with a trailer is 8 bytes longer than its pixel data, and the pixel data is unchanged. |
| Trailer.TrailerRoundTrip | src/org/cyanogenmod/nemesis/pano/MosaicProxy.java:428-432 | Any width and height, written as a trailer after any bytes, read back by `Width` and `Height` (the source's decoding of the last 8 bytes) as exactly that width and height. |
| Trailer.TrailerSplit | src/org/cyanogenmod/nemesis/pano/MosaicProxy.java:428-432 | Every buffer of at least 8 bytes is its leading bytes followed by the trailer of the size `Width` and `Height` decode from it. |
| FinalMosaic.GenerateFinalMosaic | src/org/cyanogenmod/nemesis/pano/MosaicProxy.java:414-452 | `null` exactly on cancellation. An invalid result is exactly `INVALID_JPEG`, the no-argument `MosaicJpeg`. A result is valid exactly when all of these hold: the engine succeeded, the buffer is non-null, the stream closed, and the decoded width and height are positive. A valid result is `ValidJpeg`, the three-argument `MosaicJpeg`, holding the compression of the whole buffer at the decoded size. |
| FinalMosaic.CancelledIgnoresEverythingElse | src/org/cyanogenmod/nemesis/pano/MosaicProxy.java:415-418 | A cancelled computation is `null`, whatever the buffer, the encoder and the stream would have done. |
| FinalMosaic.ErrorPathsAreInvalid | src/org/cyanogenmod/nemesis/pano/MosaicProxy.java:418-450 | These cases each give data `null`, size 0 x 0 and `isValid` false: an engine error, a `null` buffer, a non-positive width or height, or a failing close. |
| FinalMosaic.HighBitTrailerIsInvalid | src/org/cyanogenmod/nemesis/pano/MosaicProxy.java:428-440 | A trailer whose width or height starts with a high-bit byte gives the invalid result, never a valid one. |
| FinalMosaic.ValidForPositiveTrailer | src/org/cyanogenmod/nemesis/pano/MosaicProxy.java:428-451 | A buffer ending in the trailer of a positive size, with the engine succeeding and the stream closing cleanly, gives a valid mosaic of exactly that size. |
| FinalMosaic.ValidResultHasTrailer | src/org/cyanogenmod/nemesis/pano/MosaicProxy.java:105-110 | Every valid result comes from a successful engine and a clean close. It has a positive width and height, and its buffer ends in the trailer of exactly that size. |
| FinalMosaic.Example800x600 | src/org/cyanogenmod/nemesis/pano/MosaicProxy.java:428-451 | A trailer for 800 x 600 decodes to 800 x 600 and leaves the bytes before it untouched. |
| Sweep.Abs | src/org/cyanogenmod/nemesis/pano/MosaicProxy.java:345-346 | `Math.abs` is non-negative and is either the argument or its negation. |
| Sweep.AbsOfProduct | src/org/cyanogenmod/nemesis/pano/MosaicProxy.java:342-346 | The absolute value of a product is the product of the absolute values. |
| Sweep.SignSymmetric | src/org/cyanogenmod/nemesis/pano/MosaicProxy.java:342-346 | `SweepComplete`, the source's test that either axis has swept at least 160 degrees, does not change when the progress on either axis is negated, independently. |
| Sweep.Monotone | src/org/cyanogenmod/nemesis/pano/MosaicProxy.java:342-346 | Once a sweep counts as complete, more progress on either axis keeps it complete. |
| Sweep.AxisMonotone | src/org/cyanogenmod/nemesis/pano/MosaicProxy.java:342-346 | More progress on an axis gives at least as many degrees on it. |
| Sweep.NarrowViewNeedsFinish | src/org/cyanogenmod/nemesis/pano/MosaicProxy.java:342-346 | With both view angles below 160 degrees and progress within one field of view, only the engine's `isFinished` completes the sweep. |
| Sweep.LinearSweepStopsAtLastSample | src/org/cyanogenmod/nemesis/pano/MosaicProxy.java:342-346 | With a 60-degree view, ten linear samples to progress 1.0, and finishing on the tenth, the sweep is complete at sample k exactly when k is 10. |
| Capture.Toggled | src/org/cyanogenmod/nemesis/pano/MosaicProxy.java:246-252 | The shutter always moves to the other of the two states. |
| Capture.EngineCalls | src/org/cyanogenmod/nemesis/pano/MosaicProxy.java:415-424 | `createMosaic` comes first. The buffer is read exactly when the engine reported success. |
| Capture.PhaseOfPrefix | src/org/cyanogenmod/nemesis/pano/MosaicProxy.java:157-167 | In a conforming trace, the phase before each call is what the earlier calls say: the last listener call, whether the first frame was shown, whether the preview was configured, and the last call. |
| Capture.ProcessFrameOnlyWhileCapturing | src/org/cyanogenmod/nemesis/pano/MosaicProxy.java:157-167 | `processFrame` happens only right after `alignFrameSync`, with the progress listener installed and the root view visible. |
| Capture.FirstFrameShownOnce | src/org/cyanogenmod/nemesis/pano/MosaicProxy.java:157-160 | `showPreviewFrameSync` happens at most once per session, and never when the root view started out visible. |
| Capture.FinalizationOnlyAfterStop | src/org/cyanogenmod/nemesis/pano/MosaicProxy.java:376-388 | A low-resolution finalization starts only right after the frame listener was detached, with the progress listener removed. |
| Capture.MosaicProxy.constructor | src/org/cyanogenmod/nemesis/pano/MosaicProxy.java:125-214 | A new session is in the viewfinder with no listeners and an empty trace. The view angles are kept for the sweep test. |
| Capture.MosaicProxy.OnSurfaceTextureAvailable | src/org/cyanogenmod/nemesis/pano/MosaicProxy.java:295-311 | The renderer is configured and the session becomes the camera texture's frame listener, with one configuration call recorded. |
| Capture.MosaicProxy.OnFrameAvailable | src/org/cyanogenmod/nemesis/pano/MosaicProxy.java:238-243 | Only a frame runnable is posted to the UI thread. |
| Capture.MosaicProxy.RunFrameTask | src/org/cyanogenmod/nemesis/pano/MosaicProxy.java:157-167 | Exactly one branch runs. A hidden root gets `showPreviewFrameSync` and becomes visible. The viewfinder gets only `showPreviewFrame`. Capturing gets `alignFrameSync` then `processFrame`. |
| Capture.MosaicProxy.OnShutterButtonClicked | src/org/cyanogenmod/nemesis/pano/MosaicProxy.java:246-252 | The state toggles. From mosaic the stop calls happen and one low-resolution finalization starts. From the viewfinder the start's fields and listener are set. |
| Capture.MosaicProxy.StartCapture | src/org/cyanogenmod/nemesis/pano/MosaicProxy.java:328-368 | Cancellation is cleared, the start time is recorded, the state is mosaic and a progress listener is installed. There is no guard against a running capture. |
| Capture.MosaicProxy.StopCapture | src/org/cyanogenmod/nemesis/pano/MosaicProxy.java:370-404 | Back to the viewfinder, the progress listener removed and the frame listener detached. A low-resolution finalization starts exactly when the stop is not aborted. |
| Capture.MosaicProxy.OnProgress | src/org/cyanogenmod/nemesis/pano/MosaicProxy.java:338-356 | A stop is logged exactly when the sweep is complete. No state changes. |
| Capture.MosaicProxy.GenerateFinalMosaicFrom | src/org/cyanogenmod/nemesis/pano/MosaicProxy.java:414-452 | The engine calls are recorded and the outcome is the pure classification. |
| Capture.MosaicProxy.Post | src/org/cyanogenmod/nemesis/pano/MosaicProxy.java:396-399 | The message joins the end of the main handler's queue. |
| Capture.MosaicProxy.RunLowResWorker | src/org/cyanogenmod/nemesis/pano/MosaicProxy.java:386-401 | A valid low-resolution mosaic posts exactly the ready message. Anything else posts exactly the reset message. |
| Capture.MosaicProxy.HandleMessage | src/org/cyanogenmod/nemesis/pano/MosaicProxy.java:171-207 | The first queued message is taken. The ready message starts the high-resolution save. The error and reset messages do nothing. The screen-delay message clears keep-screen-on. |
| Capture.MosaicProxy.SaveHighResMosaic | src/org/cyanogenmod/nemesis/pano/MosaicProxy.java:462-490 | One high-resolution thread is started. |
| Capture.MosaicProxy.RunHighResWorker | src/org/cyanogenmod/nemesis/pano/MosaicProxy.java:465-487 | Cancelled posts only the reset. Invalid posts only the error. Valid saves once with the result's data, size and orientation 0, broadcasts a stored picture, then posts the reset. |
| Capture.MosaicProxy.ReportHighResMosaic | src/org/cyanogenmod/nemesis/pano/MosaicProxy.java:474-486 | The same routing, stated for an already computed outcome. |
| Capture.MosaicProxy.SavePanorama | src/org/cyanogenmod/nemesis/pano/MosaicProxy.java:492-519 | Without data nothing is stored and `null` is returned. With data the file is written, EXIF is attempted (a failure is only logged), and the media store's answer is returned. |
| Capture.ShutterTwiceFromViewfinder | src/org/cyanogenmod/nemesis/pano/MosaicProxy.java:246-252 | Two shutter presses from the viewfinder start and stop a capture and come back to the viewfinder, with one finalization started. |

## Left out

- Views, layouts, `TextureView` and GL set-up are out, including the preview sizes and `mMosaicFrameProcessor.initialize`. They are UI and foreign graphics code. `OnSurfaceTextureAvailable` only records that the renderer exists and that the frame listener is attached.
- Threads, `runOnUiThread` and the `Handler` queue are modelled as ghost counters of pending work and a message sequence. Interleavings and concurrency are not modelled.
- `YuvImage.compressToJpeg`, `BitmapFactory.decodeByteArray`, `ExifInterface`, `Storage.writeFile`/`addImage` and `Util.broadcastNewPicture` are foreign library calls. They are parameters or trace events.
- The decoded low-resolution bitmap attached to the ready message is not modelled. It is a foreign decoder's output, and the handler does not use it.
- `PanoUtil.createName` and the file length passed to `addImage` are out. The trace records the start time used for the name instead.
- `setupProgressDirectionMatrix` is out. It rotates a matrix by a hard-coded 0.
- `tearDown` is out. It only removes a view.
- Floating-point rounding in the degree arithmetic is out. Progress and angles are real numbers.
- The engine's numeric return codes (`Mosaic.MOSAIC_RET_*`) are not part of this model. `Ok` stands for every code but cancelled and error.
- FinalMosaic.GenerateFinalMosaic: a successful engine returning a buffer shorter than 8 bytes is excluded by a precondition. The source would index outside the array there.
- Capture.MosaicProxy.StopCapture: requires a configured preview, because the source dereferences the camera texture, which is `null` before configuration.
- Capture.MosaicProxy.OnShutterButtonClicked: requires a configured preview when capturing, because it calls `stopCapture`, which dereferences the camera texture.
- Capture.ShutterTwiceFromViewfinder: requires a configured preview for the same reason, since its second press calls `stopCapture`.
- Capture.MosaicProxy.OnFrameAvailable: requires the frame listener to be attached, because the camera texture calls only its current listener.
- Capture.MosaicProxy.ReportHighResMosaic: requires a well-formed outcome, which the classification always produces.
- The cancellation flag is never set to `true` in this class, and no code here polls it. The model keeps the field but adds no cancellation behaviour.
