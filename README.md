# Object recognizer capture pipeline — a Dafny model

This project models the core of a mobile app's object recognizer, the class
`ObjectRecognitive` and its data classes. The recognizer works in a loop. It
captures a camera frame and records the frame's size. It raises
`OnImageCaptured` and turns the frame into JPEG bytes meant for a 640x640
inference frame ("fit" scaling; see below for what the code actually
encodes). It posts the bytes to a recognition endpoint and parses the
returned detections. It maps each detection box from the 640x640 inference
frame back to the captured frame. Then it raises `OnRecognitionCompleted`,
or `OnError` when something fails.

The modules are:

- `Wrappers` (wrappers.dfy): `Option` stands for a C# `null` reference and
  `Result` for a thrown exception.
- `Geometry` (geometry.dfy): `Size`, `BoundingBox`, and the C# `(int)` cast
  as `Trunc` (toward zero). It also holds the fit-size arithmetic of
  `ResizeImageManually` and the per-axis box rescaling of
  `ConvertCoordinatesToOriginal`. Floats are exact `real`s.
- `Recognition` (recognition.dfy): `RecognizedObject`, a class because the
  mapping assigns its `OriginalBoundingBox` in place. `RecognitionResult` is
  a value. The abstract outcomes of the JSON decoder (`Decoded`) and of the
  HTTP call (`HttpOutcome`) live here. So do `ParseRecognitionResponse` and
  `SendOutcome`, which says how `SendToRecognitionAPI` classifies an
  outcome.
- `Services` (object_recognitive.dfy): the class `ObjectRecognitive`. It
  holds the running flag, the timer handle, the two image sizes and the
  settings. `CaptureTimer` stands for `System.Threading.Timer`: a due
  time, a period and a disposed flag. `IsTimerInterval` is that timer's
  rule for its arguments: -1 or more milliseconds, anything below -1
  throwing `ArgumentOutOfRangeException`. Its methods `Start`, `Stop`, `Dispose`, `SendToRecognitionAPI`,
  `ConvertCoordinatesToOriginal` and `CaptureCallback` are imperative
  Dafny. A ghost `trace` records each cycle's observable steps in order.
  The pure function `CycleTrace` says what one cycle appends to it, and
  `RequestTrace` what the part from the request on appends. The method
  `RequestAndMap` is that part of `CaptureCallback`, split off as its own
  method.

Each platform call is a parameter that holds its outcome: the captured frame
(or `None`), the encoded bytes (or `None`), the HTTP outcome, the clock
reading, and any exception an event subscriber throws.

A few behaviours of the code are easy to misread. The model follows the
code:

- The fit factor of `ResizeImageManually` is not clamped to 1. For a frame
  smaller than 640x640, the size it computes (`newWidth`, `newHeight`) is
  therefore larger than the frame (`FitEnlargesSmallImages`). That computed
  size is truncated by the `(int)` cast, which matches `floor` only for
  non-negative values. Only one path encodes a frame at that computed
  size: the Android branch of the fallback scales the bitmap to `newWidth`
  x `newHeight` (Services/ObjectRecognitive.cs:331-339), so there a small
  frame is enlarged. In the fallback, the Windows branch saves the original
  image unchanged, and the iOS branch is commented out and yields no bytes.
  The primary path (`ResizeAndConvertToJpeg`) calls
  `Resize(…, ResizeMode.Fit, true)` and discards the image it returns
  (Services/ObjectRecognitive.cs:291). That `true` disposes the original
  image, which line 292 then saves. What that yields (bytes, or an
  exception that leads to the fallback) is platform behaviour and is not
  modelled.
- A decoding failure is re-thrown by `ParseRecognitionResponse`.
  `SendToRecognitionAPI` catches it, raises `OnError` once and returns
  `null`. It never leaves `SendToRecognitionAPI`.
- The mapping checks only for a null or empty object list, not whether the
  sizes are set. It reads the recognizer's own `originalImageSize` and
  `scaledImageSize` fields, not the copies stored in the result.
- `ApiTimeout` is applied to the HTTP client only in the constructor.
  Changing it later has no effect (`httpTimeout` is a `const`).
- `Start` sets the running flag before it creates the timer. When
  `CaptureInterval` is below -1, the timer constructor throws
  `ArgumentOutOfRangeException`. The recognizer is then left running with
  no timer, so no cycle runs and a second `Start` throws
  `InvalidOperationException`. Only `Stop` or `Dispose` recovers.
- A `null` entry in the decoded list (JSON `[null]`) makes the mapping
  loop throw `NullReferenceException` partway through. The cycle's catch
  turns that into `OnError`.

## Model

| member | source | states |
|---|---|---|
| `Geometry.Trunc` | Services/ObjectRecognitive.cs:326-327 | The `(int)` cast: the result lies within one unit of its argument, toward zero, on both sides of 0 |
| `Geometry.Rescale` | Services/ObjectRecognitive.cs:465-468 | One scaled component: for non-negative inputs it is the largest integer not above `v * factor` |
| `Geometry.ToOriginal` | Services/ObjectRecognitive.cs:453-469 | Each box component multiplied by original/scaled in its own axis (x and width use width, y and height use height), truncated to within one unit |
| `Geometry.ToOriginalExample` | Services/ObjectRecognitive.cs:453-469 | (10,20,100,50) in a 640x640 frame of a 1920x1080 capture maps to (30,33,300,84) |
| `Geometry.RescaleRoundTrip` | Services/ObjectRecognitive.cs:465-468 | Scaling a component up by a factor of at least 1 and back down by its inverse moves it by at most one unit toward zero: down for a non-negative component, up for a negative one |
| `Geometry.NonNegativeRoundTrip` | Services/ObjectRecognitive.cs:465-468 | The non-negative case of RescaleRoundTrip: the component comes back between v-1 and v |
| `Geometry.NegativeRoundTrip` | Services/ObjectRecognitive.cs:465-468 | The negative case of RescaleRoundTrip (a box partly off the frame's edge): the component comes back between v and v+1 |
| `Geometry.BoxRoundTrip` | Services/ObjectRecognitive.cs:453-469 | For a capture at least as large as the inference frame, each component of any box (negative components, such as a box partly off the left edge, included) comes back within one unit toward zero after mapping there and back |
| `Geometry.MappedBoxStaysInFrame` | Services/ObjectRecognitive.cs:453-469 | A box inside the inference frame maps to a box inside the captured frame |
| `Geometry.FitSize` | Services/ObjectRecognitive.cs:322-327 | One factor, min(tw/w, th/h), for both axes; new width <= tw and new height <= th; the binding dimension equals its target exactly |
| `Geometry.FitEnlargesSmallImages` | Services/ObjectRecognitive.cs:322-327 | The factor is not clamped: a frame within the target in both axes gets a factor >= 1 and is not made smaller |
| `Recognition.RecognizedObject.constructor` | Services/ObjectRecognitive.cs:507-535 | An object holds exactly the name, confidence and three boxes it was built with |
| `Recognition.FirstNull` | Services/ObjectRecognitive.cs:458-460 | The index where the walk over the list first dereferences a null entry, or the length; no null comes before it |
| `Recognition.ParseRecognitionResponse` | Services/ObjectRecognitive.cs:417-442 | The objects are the decoded list in order, or empty for JSON null; time and both current sizes copied in; rendered size left at its default; a decoding exception re-thrown unchanged, and only then a failure |
| `Recognition.SendOutcome` | Services/ObjectRecognitive.cs:364-412 | Non-success status gives null quietly; any exception, the re-thrown parse failure included, is reported with its own value; otherwise the parsed result with the response's objects and the current sizes |
| `Services.CycleTrace` | Services/ObjectRecognitive.cs:141-192 | A tick while stopped, or a failed capture, does nothing. Otherwise the size is recorded first and OnImageCaptured raised second |
| `Services.CycleCallsApiIff` | Services/ObjectRecognitive.cs:149-176 | The endpoint is called exactly when running, a frame was captured, no OnImageCaptured subscriber threw, and the encoded bytes are non-null and non-empty |
| `Services.CycleErrorIsLast` | Services/ObjectRecognitive.cs:146-191 | A cycle raises OnError at most once, and nothing follows it |
| `Services.FaultsReported` | Services/ObjectRecognitive.cs:161-191 | The cycle ends with OnError carrying the fault when an OnImageCaptured subscriber throws, when the mapping meets a null entry (NullReferenceException), and when an OnRecognitionCompleted subscriber throws |
| `Services.CycleCompletesAfterMapping` | Services/ObjectRecognitive.cs:176-185 | OnRecognitionCompleted comes only right after the mapping, and only with the result the API call returned |
| `Services.CycleDeliversResult` | Services/ObjectRecognitive.cs:176-185 | A decoded success response with no null entry is always delivered, stamped with the captured size and the recognizer's scaled size (640x640 whenever `Valid()` holds, as at every `CaptureCallback` call) |
| `Services.ParseFailureReportedOnce` | Services/ObjectRecognitive.cs:376-441 | A body that fails to decode ends the cycle with exactly one OnError carrying the decoder's exception |
| `Services.RejectedStatusIsSilent` | Services/ObjectRecognitive.cs:385-391 | A non-success status ends the cycle after the request with no event |
| `Services.ObjectRecognitive.constructor` | Services/ObjectRecognitive.cs:83-105 | Idle, no timer, inference size 640x640, interval 1000 ms, API timeout 10000 ms (also the client's), JPEG quality 85 |
| `Services.ObjectRecognitive.Start` | Services/ObjectRecognitive.cs:109-120 | Always ends running. While running: InvalidOperationException, with the timer and the timer set unchanged. From idle with an interval below -1: ArgumentOutOfRangeException, running with no timer and no new timer. From idle otherwise: one fresh timer (due 0, period CaptureInterval) added. The invariant says at most one timer is ever live, and a live timer implies running |
| `Services.ObjectRecognitive.Stop` | Services/ObjectRecognitive.cs:125-136 | Always ends idle with no timer and every timer disposed. The timer, if there is one, is disposed. When idle, nothing changes |
| `Services.ObjectRecognitive.Dispose` | Services/ObjectRecognitive.cs:479-484 | Ends idle with the HTTP client disposed and every timer the recognizer made disposed |
| `Services.ObjectRecognitive.SendToRecognitionAPI` | Services/ObjectRecognitive.cs:364-412 | Makes the request. It returns SendOutcome's result when there is one and null otherwise. It raises OnError exactly when the outcome is a failure |
| `Services.ObjectRecognitive.ConvertCoordinatesToOriginal` | Services/ObjectRecognitive.cs:447-474 | Every object before the first null entry that has a box gets the mapped original box. A null entry throws NullReferenceException. Nothing else changes: name, confidence, boxes, list and order |
| `Services.ObjectRecognitive.CaptureCallback` | Services/ObjectRecognitive.cs:141-192 | Appends exactly CycleTrace to the trace. It writes originalImageSize only after a capture. It maps boxes only when the cycle reaches the mapping, and changes nothing else |
| `Services.ObjectRecognitive.RequestAndMap` | Services/ObjectRecognitive.cs:176-191 | The request part of a cycle: appends the request and RequestTrace to the trace. Boxes are mapped only for a decoded success response, up to the first null entry, with the recognizer's current sizes; nothing else changes |

## Left out

- HTTP transport (`HttpClient.PostAsync`, headers, reading the body, the endpoint URL): network I/O. Only its outcome is modelled: a status with what decoding would yield, or an exception.
- JSON deserialization (`JsonSerializer.Deserialize`, case-insensitive names): a library call. Its outcome is a list, JSON null, or an exception.
- Camera capture and the test image (`CaptureFromCamera`, `CreateTestImage`, `CreateTestImageStream`): platform calls. The captured frame, or null, is a parameter.
- `ResizeAndConvertToJpeg` and the platform half of `ResizeImageManually` (native resize, JPEG encoding, the choice between primary and fallback paths): platform calls. The encoded bytes, or null, are a parameter. Only the fit-size arithmetic is modelled.
- Concurrency: the timer's periodic ticks, `async void`, overlapping ticks, and the `lock` around `isRunning`. A tick is one sequential call of `CaptureCallback`. Overlapping cycles sharing `originalImageSize`, and results that arrive after a stop and restart, are not modelled.
- Float rounding: `SizeF` and `float` scale factors are exact reals. Results are not bit-exact float results, and an `(int)` cast of a value outside the 32-bit range is not modelled.
- Geometry.FitSize: requires positive width and height. For a zero-sized frame the source divides by zero in floats, and the cast of the resulting infinity or NaN is not modelled.
- Geometry.RescaleRoundTrip: requires a factor of at least 1. With a smaller factor truncation can lose more than one unit, so the round-trip bound holds only when the capture is at least as large as the inference frame.
- Rendered-space mapping: `RenderedImageSize` and `RenderBoundingBox` are declared but never computed in this class. They are carried unchanged.
- Console logging and the `ToString` methods: side output only.
- Event subscription: each raise of an event is a trace step, whether or not anyone subscribed. A throwing OnImageCaptured or OnRecognitionCompleted subscriber is a parameter. A throwing OnError subscriber is not modelled. In the source, one that throws while `SendToRecognitionAPI` raises OnError propagates out of that method into the cycle's catch, which raises OnError a second time; a throw from that second raise escapes the callback. So "OnError at most once per cycle" (`CycleErrorIsLast`) holds only while OnError subscribers do not throw.
- The `result.Objects == null` test in `ConvertCoordinatesToOriginal`: the only producer of a result always sets a non-null list, so the model's list is never null. The empty-list test is modelled.
- A request after `Dispose`: `httpClientDisposed` is recorded but not read. The source still allows `Start` after `Dispose`, and every later POST would then throw `ObjectDisposedException`. The model's `SendToRecognitionAPI` accepts any HTTP outcome, so that failure is not forced; it is only the `Thrown` outcome a caller may pass.
- The last `captureTimer?.Dispose()` in `Dispose`: `Stop` has already set the field to null, so that step does nothing and is not repeated.
- `DateTime.Now` is the `now` parameter, and `byte[]` content is opaque. Only whether it is null or empty matters.
- `BoundingBox` is a value. The source's boxes are objects, but nothing here changes one in place.
- MauiProgram.cs (app start-up and dependency registration) and wwwroot/js/camera.js (browser camera stream) are not part of this model.
