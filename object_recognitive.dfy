/** ObjectRecognitive: the capture scheduler. A running flag and a timer
    handle make a two-state machine (Start, Stop, Dispose); each timer tick
    runs one pipeline cycle (CaptureCallback): capture, record the original
    size, raise OnImageCaptured, transcode, send, map the boxes back to the
    captured frame, raise OnRecognitionCompleted, with every escaping
    exception raised as OnError.

    The platform calls of a cycle (camera, transcoding, HTTP, the JSON
    decoder, event subscribers) are parameters holding their outcome. What
    the cycle does observably is recorded, step by step, in a ghost trace. */
module Services {
  import opened Wrappers
  import opened Geometry
  import opened Recognition

  const TargetWidth: int := 640
  const TargetHeight: int := 640
  const DefaultCaptureInterval: int := 1000
  const DefaultApiTimeout: int := 10000
  const DefaultJpegQuality: int := 85

  /** `IImage`: only its size matters to the pipeline. */
  datatype Image = Image(width: real, height: real)

  /** One observable step of a cycle, in the order it happens. */
  datatype Step =
    | SizeRecorded(size: Size)                     // originalImageSize is written
    | ImageCaptured(image: Image)                  // OnImageCaptured is raised
    | ApiRequested                                 // the POST to the endpoint is made
    | CoordinatesMapped                            // ConvertCoordinatesToOriginal completed
    | RecognitionCompleted(result: RecognitionResult)  // OnRecognitionCompleted is raised
    | ErrorRaised(error: Exception)                // OnError is raised

  /** The due times and periods `System.Threading.Timer` accepts: a
      non-negative number of milliseconds, or -1 (`Timeout.Infinite`).
      Anything below -1 makes its constructor throw
      ArgumentOutOfRangeException. */
  predicate IsTimerInterval(milliseconds: int)
  {
    -1 <= milliseconds
  }

  /** `System.Threading.Timer`: created with a due time and a period, and
      disposed to stop it. Its ticks are not modelled; each tick is a call
      of CaptureCallback. The caller checks the arguments and raises
      ArgumentOutOfRangeException itself where the .NET constructor would. */
  class CaptureTimer {
    const dueTime: int
    const period: int
    var disposed: bool

    constructor (dueTime: int, period: int)
      requires IsTimerInterval(dueTime) && IsTimerInterval(period)
      ensures this.dueTime == dueTime && this.period == period && !disposed
    {
      this.dueTime := dueTime;
      this.period := period;
      disposed := false;
    }

    method Dispose()
      modifies this
      ensures disposed
    {
      disposed := true;
    }
  }

  /** Whether a cycle gets as far as the coordinate mapping: running, a
      frame captured, no subscriber fault at OnImageCaptured, non-empty
      encoded bytes, and a success response that decodes. */
  predicate ReachesMapping(running: bool, capture: Option<Image>, encoded: Option<seq<byte>>,
                           response: HttpOutcome, capturedFault: Option<Exception>)
  {
    && running && capture.Some? && capturedFault.None?
    && encoded.Some? && |encoded.value| > 0
    && response.Responded? && IsSuccessStatusCode(response.status) && response.body.Decoded?
  }

  /** The steps of one CaptureCallback cycle. `capturedFault` and
      `completedFault` are exceptions thrown by the subscribers of
      OnImageCaptured and OnRecognitionCompleted. */
  function CycleTrace(running: bool, capture: Option<Image>, encoded: Option<seq<byte>>,
                      response: HttpOutcome, now: Timestamp, scaledImageSize: Size,
                      capturedFault: Option<Exception>, completedFault: Option<Exception>): (r: seq<Step>)
    // a tick while stopped, or a failed capture, does nothing observable
    ensures !running || capture.None? ==> r == []
    // the size is recorded before OnImageCaptured is raised, and both come first
    ensures running && capture.Some? ==>
              && |r| >= 2
              && r[0] == SizeRecorded(Size(capture.value.width, capture.value.height))
              && r[1] == ImageCaptured(capture.value)
  {
    if !running || capture.None? then []
    else
      var image := capture.value;
      var size := Size(image.width, image.height);
      var captured := [SizeRecorded(size), ImageCaptured(image)];
      if capturedFault.Some? then captured + [ErrorRaised(capturedFault.value)]
      else if encoded.None? || |encoded.value| == 0 then captured
      else captured + [ApiRequested] + RequestTrace(response, now, size, scaledImageSize, completedFault)
  }

  /** The steps of a cycle after the request is sent: what
      SendToRecognitionAPI raises, or the mapping, OnRecognitionCompleted
      and what its subscribers throw. */
  function RequestTrace(response: HttpOutcome, now: Timestamp, originalImageSize: Size, scaledImageSize: Size,
                        completedFault: Option<Exception>): (r: seq<Step>)
  {
    match SendOutcome(response, now, originalImageSize, scaledImageSize)
    case Rejected(_) => []
    case Failed(e) => [ErrorRaised(e)]
    case Recognized(result) =>
      if null in result.objects then [ErrorRaised(NullReferenceException)]
      else [CoordinatesMapped, RecognitionCompleted(result)]
           + match completedFault { case Some(e) => [ErrorRaised(e)] case None => [] }
  }

  /** The endpoint is called exactly when a frame was captured, no
      OnImageCaptured subscriber threw, and there are bytes to send. */
  lemma CycleCallsApiIff(running: bool, capture: Option<Image>, encoded: Option<seq<byte>>,
                         response: HttpOutcome, now: Timestamp, scaledImageSize: Size,
                         capturedFault: Option<Exception>, completedFault: Option<Exception>)
    ensures ApiRequested in CycleTrace(running, capture, encoded, response, now, scaledImageSize, capturedFault, completedFault)
            <==> running && capture.Some? && capturedFault.None? && encoded.Some? && |encoded.value| > 0
  {
  }

  /** A cycle raises OnError at most once, and nothing follows it. */
  lemma CycleErrorIsLast(running: bool, capture: Option<Image>, encoded: Option<seq<byte>>,
                         response: HttpOutcome, now: Timestamp, scaledImageSize: Size,
                         capturedFault: Option<Exception>, completedFault: Option<Exception>)
    ensures var r := CycleTrace(running, capture, encoded, response, now, scaledImageSize, capturedFault, completedFault);
            forall i :: 0 <= i < |r| && r[i].ErrorRaised? ==> i == |r| - 1
  {
  }

  /** The three faults that arise inside the cycle itself each end it with
      OnError carrying that fault: a throwing OnImageCaptured subscriber, a
      `null` entry met by the mapping loop, and a throwing
      OnRecognitionCompleted subscriber. */
  lemma FaultsReported(running: bool, image: Image, encoded: Option<seq<byte>>,
                       response: HttpOutcome, now: Timestamp, scaledImageSize: Size,
                       capturedFault: Option<Exception>, completedFault: Option<Exception>)
    requires running
    ensures var r := CycleTrace(running, Some(image), encoded, response, now, scaledImageSize, capturedFault, completedFault);
            && (capturedFault.Some? ==> |r| > 0 && r[|r| - 1] == ErrorRaised(capturedFault.value))
            && (ReachesMapping(running, Some(image), encoded, response, capturedFault)
                && null in ResponseObjects(response) ==>
                  |r| > 0 && r[|r| - 1] == ErrorRaised(NullReferenceException))
            && (ReachesMapping(running, Some(image), encoded, response, capturedFault)
                && null !in ResponseObjects(response) && completedFault.Some? ==>
                  |r| > 0 && r[|r| - 1] == ErrorRaised(completedFault.value))
  {
  }

  /** OnRecognitionCompleted is raised only right after the coordinate
      mapping, and only with the result the API call returned. */
  lemma CycleCompletesAfterMapping(running: bool, capture: Option<Image>, encoded: Option<seq<byte>>,
                                   response: HttpOutcome, now: Timestamp, scaledImageSize: Size,
                                   capturedFault: Option<Exception>, completedFault: Option<Exception>)
    ensures var r := CycleTrace(running, capture, encoded, response, now, scaledImageSize, capturedFault, completedFault);
            forall i :: 0 <= i < |r| && r[i].RecognitionCompleted? ==>
              && 0 < i && r[i - 1] == CoordinatesMapped
              && capture.Some?
              && SendOutcome(response, now, Size(capture.value.width, capture.value.height), scaledImageSize)
                 == Recognized(r[i].result)
  {
  }

  /** A decoded success response whose list has no `null` entry is always
      delivered through OnRecognitionCompleted, stamped with the captured
      size and the inference size. */
  lemma CycleDeliversResult(running: bool, capture: Option<Image>, encoded: Option<seq<byte>>,
                            response: HttpOutcome, now: Timestamp, scaledImageSize: Size,
                            capturedFault: Option<Exception>, completedFault: Option<Exception>)
    requires ReachesMapping(running, capture, encoded, response, capturedFault)
    requires null !in ResponseObjects(response)
    ensures RecognitionCompleted(RecognitionResult(now, ResponseObjects(response),
                                                   Size(capture.value.width, capture.value.height),
                                                   scaledImageSize, Size(0.0, 0.0)))
            in CycleTrace(running, capture, encoded, response, now, scaledImageSize, capturedFault, completedFault)
  {
  }

  /** A response that fails to decode ends the cycle with exactly one
      OnError carrying the decoder's exception; it never reaches the
      mapping or OnRecognitionCompleted. */
  lemma ParseFailureReportedOnce(running: bool, image: Image, encoded: seq<byte>, status: int, error: Exception,
                                 now: Timestamp, scaledImageSize: Size, completedFault: Option<Exception>)
    requires running && |encoded| > 0 && IsSuccessStatusCode(status)
    ensures CycleTrace(running, Some(image), Some(encoded), Responded(status, DecodeFailed(error)), now,
                       scaledImageSize, None, completedFault)
            == [SizeRecorded(Size(image.width, image.height)), ImageCaptured(image), ApiRequested, ErrorRaised(error)]
  {
  }

  /** A non-success status ends the cycle after the request with no event
      at all. */
  lemma RejectedStatusIsSilent(running: bool, image: Image, encoded: seq<byte>, status: int, body: Decoded,
                               now: Timestamp, scaledImageSize: Size, completedFault: Option<Exception>)
    requires running && |encoded| > 0 && !IsSuccessStatusCode(status)
    ensures CycleTrace(running, Some(image), Some(encoded), Responded(status, body), now,
                       scaledImageSize, None, completedFault)
            == [SizeRecorded(Size(image.width, image.height)), ImageCaptured(image), ApiRequested]
  {
  }

  class ObjectRecognitive {
    var captureTimer: CaptureTimer?
    var isRunning: bool
    var originalImageSize: Size
    var scaledImageSize: Size
    var CaptureInterval: int
    var ApiTimeout: int
    var JpegQuality: int
    /** `HttpClient.Timeout`, fixed when the client is built. */
    const httpTimeout: int
    var httpClientDisposed: bool

    /** Every timer this recognizer has created. */
    ghost var timers: set<CaptureTimer>
    /** The steps of all cycles run so far. */
    ghost var trace: seq<Step>

    /** An installed timer is live and means running; every other timer
        this recognizer made is disposed, so two are never live at once.
        Running without a timer is possible: Start sets the flag before it
        builds the timer, and a rejected interval leaves it so. The
        inference size is always 640x640. */
    ghost predicate Valid()
      reads this, timers
    {
      && scaledImageSize == Size(TargetWidth as real, TargetHeight as real)
      && (captureTimer != null ==> isRunning)
      && (captureTimer != null ==> captureTimer in timers && !captureTimer.disposed)
      && (forall t :: t in timers && t != captureTimer ==> t.disposed)
    }

    constructor ()
      ensures Valid()
      ensures !isRunning && captureTimer == null && timers == {} && trace == []
      ensures originalImageSize == Size(0.0, 0.0)
      ensures scaledImageSize == Size(640.0, 640.0)
      ensures CaptureInterval == 1000 && ApiTimeout == 10000 && JpegQuality == 85
      ensures httpTimeout == 10000 && !httpClientDisposed
    {
      captureTimer := null;
      isRunning := false;
      originalImageSize := Size(0.0, 0.0);
      CaptureInterval := DefaultCaptureInterval;
      ApiTimeout := DefaultApiTimeout;
      JpegQuality := DefaultJpegQuality;
      httpTimeout := DefaultApiTimeout;
      httpClientDisposed := false;
      scaledImageSize := Size(TargetWidth as real, TargetHeight as real);
      timers := {};
      trace := [];
    }

    /** Start: from idle, set the flag and install a fresh timer that fires
        at once and then every CaptureInterval milliseconds; while running,
        throw InvalidOperationException and change nothing. An interval
        below -1 makes the timer constructor throw
        ArgumentOutOfRangeException after the flag is set: the recognizer
        is then running with no timer, and only Stop gets it out. */
    method Start() returns (thrown: Option<Exception>)
      requires Valid()
      modifies this`isRunning, this`captureTimer, this`timers
      ensures Valid() && isRunning
      ensures old(isRunning) ==>
                thrown == Some(InvalidOperationException)
                && captureTimer == old(captureTimer) && timers == old(timers)
      ensures !old(isRunning) && !IsTimerInterval(CaptureInterval) ==>
                thrown == Some(ArgumentOutOfRangeException)
                && captureTimer == null && timers == old(timers)
      ensures !old(isRunning) && IsTimerInterval(CaptureInterval) ==>
                && thrown == None
                && captureTimer != null && fresh(captureTimer)
                && captureTimer.dueTime == 0 && captureTimer.period == CaptureInterval
                && timers == old(timers) + {captureTimer}
    {
      if isRunning {
        return Some(InvalidOperationException);
      }
      isRunning := true;
      if !IsTimerInterval(CaptureInterval) {
        return Some(ArgumentOutOfRangeException);
      }
      captureTimer := new CaptureTimer(0, CaptureInterval);
      timers := timers + {captureTimer};
      thrown := None;
    }

    /** Stop: while running, clear the flag, dispose the timer if there is
        one and drop it; while idle, return with nothing changed. */
    method Stop()
      requires Valid()
      modifies this`isRunning, this`captureTimer, captureTimer
      ensures Valid() && !isRunning && captureTimer == null && timers == old(timers)
      ensures old(captureTimer) != null ==> old(captureTimer).disposed
      ensures !old(isRunning) ==> unchanged(this)
      ensures forall t :: t in timers ==> t.disposed
    {
      if !isRunning {
        return;
      }
      isRunning := false;
      if captureTimer != null {
        captureTimer.Dispose();
      }
      captureTimer := null;
    }

    /** Dispose: stop, then dispose the HTTP client. The source disposes
        `captureTimer` once more afterwards, but Stop has already set it to
        `null`, so that last step does nothing and is not repeated here. */
    method Dispose()
      requires Valid()
      modifies this`isRunning, this`captureTimer, this`httpClientDisposed, captureTimer
      ensures Valid() && !isRunning && captureTimer == null && httpClientDisposed
      ensures timers == old(timers)
      ensures forall t :: t in timers ==> t.disposed
    {
      Stop();
      httpClientDisposed := true;
    }

    /** SendToRecognitionAPI, given what the request produced: a success
        response is parsed into a result; a non-success status gives `null`
        quietly; an exception, a parse failure included, raises OnError once
        and gives `null`. */
    method SendToRecognitionAPI(response: HttpOutcome, now: Timestamp) returns (result: Option<RecognitionResult>)
      modifies this`trace
      ensures var outcome := SendOutcome(response, now, originalImageSize, scaledImageSize);
              && result == (if outcome.Recognized? then Some(outcome.result) else None)
              && trace == old(trace) + [ApiRequested] + (if outcome.Failed? then [ErrorRaised(outcome.error)] else [])
    {
      trace := trace + [ApiRequested];
      match response {
        case Thrown(e) =>
          trace := trace + [ErrorRaised(e)];
          result := None;
        case Responded(status, body) =>
          if IsSuccessStatusCode(status) {
            var parsed := ParseRecognitionResponse(body, now, originalImageSize, scaledImageSize);
            match parsed {
              case Success(r) =>
                result := Some(r);
              case Failure(e) =>
                trace := trace + [ErrorRaised(e)];
                result := None;
            }
          } else {
            result := None;
          }
      }
    }

    /** ConvertCoordinatesToOriginal: walk the list in order and give every
        object that has a box an original-frame box, scaled by
        originalImageSize / scaledImageSize per axis and truncated. Nothing
        else about an object changes. A `null` entry throws
        NullReferenceException, leaving the entries before it mapped and
        the rest untouched. */
    method ConvertCoordinatesToOriginal(result: RecognitionResult) returns (thrown: Option<Exception>)
      requires Valid()
      modifies Members(result.objects)
      ensures thrown == (if null in result.objects then Some(NullReferenceException) else None)
      ensures forall o :: o in Members(result.objects) ==>
                o.originalBoundingBox ==
                  if o in result.objects[..FirstNull(result.objects)] && old(o.boundingBox).Some?
                  then Some(ToOriginal(old(o.boundingBox).value, originalImageSize, scaledImageSize))
                  else old(o.originalBoundingBox)
      ensures forall o :: o in Members(result.objects) ==>
                && o.name == old(o.name) && o.confidence == old(o.confidence)
                && o.boundingBox == old(o.boundingBox) && o.renderBoundingBox == old(o.renderBoundingBox)
    {
      var objects := result.objects;
      if |objects| == 0 {
        return None;
      }
      var i := 0;
      while i < |objects|
        invariant 0 <= i <= |objects|
        invariant null !in objects[..i]
        invariant forall o :: o in Members(objects) ==>
                    o.originalBoundingBox ==
                      if o in objects[..i] && o.boundingBox.Some?
                      then Some(ToOriginal(o.boundingBox.value, originalImageSize, scaledImageSize))
                      else old(o.originalBoundingBox)
        invariant forall o :: o in Members(objects) ==>
                    && o.name == old(o.name) && o.confidence == old(o.confidence)
                    && o.boundingBox == old(o.boundingBox) && o.renderBoundingBox == old(o.renderBoundingBox)
      {
        var obj := objects[i];
        if obj == null {
          assert FirstNull(objects) == i;
          return Some(NullReferenceException);
        }
        if obj.boundingBox.Some? {
          obj.originalBoundingBox := Some(ToOriginal(obj.boundingBox.value, originalImageSize, scaledImageSize));
        }
        assert objects[..i + 1] == objects[..i] + [obj];
        i := i + 1;
      }
      assert objects[..i] == objects;
      thrown := None;
    }

    /** CaptureCallback: one cycle, given the outcome of each platform call.
        `capture` is what the camera (or its fallback) gave, `encoded` the
        bytes of the resized JPEG, `response` the HTTP outcome. */
    method CaptureCallback(capture: Option<Image>, encoded: Option<seq<byte>>, response: HttpOutcome,
                           now: Timestamp, capturedFault: Option<Exception>, completedFault: Option<Exception>)
      requires Valid()
      modifies this`originalImageSize, this`trace, Members(ResponseObjects(response))
      ensures Valid()
      ensures trace == old(trace) + CycleTrace(isRunning, capture, encoded, response, now, scaledImageSize,
                                               capturedFault, completedFault)
      ensures originalImageSize ==
                if isRunning && capture.Some? then Size(capture.value.width, capture.value.height)
                else old(originalImageSize)
      ensures forall o :: o in Members(ResponseObjects(response)) ==>
                o.originalBoundingBox ==
                  if && ReachesMapping(isRunning, capture, encoded, response, capturedFault)
                     && o in ResponseObjects(response)[..FirstNull(ResponseObjects(response))]
                     && old(o.boundingBox).Some?
                  then Some(ToOriginal(old(o.boundingBox).value, originalImageSize, scaledImageSize))
                  else old(o.originalBoundingBox)
      ensures forall o :: o in Members(ResponseObjects(response)) ==>
                && o.name == old(o.name) && o.confidence == old(o.confidence)
                && o.boundingBox == old(o.boundingBox) && o.renderBoundingBox == old(o.renderBoundingBox)
    {
      if !isRunning {
        return;
      }
      if capture.None? {
        return;
      }
      ghost var before := trace;
      ghost var cycle := CycleTrace(isRunning, capture, encoded, response, now, scaledImageSize,
                                    capturedFault, completedFault);
      var image := capture.value;
      originalImageSize := Size(image.width, image.height);
      trace := trace + [SizeRecorded(originalImageSize)];
      trace := trace + [ImageCaptured(image)];
      ghost var captured := [SizeRecorded(originalImageSize), ImageCaptured(image)];
      assert trace == before + captured;
      if capturedFault.Some? {
        trace := trace + [ErrorRaised(capturedFault.value)];
        assert cycle == captured + [ErrorRaised(capturedFault.value)];
        assert trace == before + cycle;
        return;
      }
      if encoded.None? || |encoded.value| == 0 {
        assert cycle == captured;
        assert trace == before + cycle;
        return;
      }
      RequestAndMap(response, now, completedFault);
    }

    /** The request part of a cycle: send the bytes, map the coordinates of
        a result, raise OnRecognitionCompleted. An exception anywhere here
        ends the cycle with one OnError. */
    method RequestAndMap(response: HttpOutcome, now: Timestamp, completedFault: Option<Exception>)
      requires Valid()
      modifies this`trace, Members(ResponseObjects(response))
      ensures Valid()
      ensures trace == old(trace) + [ApiRequested]
                       + RequestTrace(response, now, originalImageSize, scaledImageSize, completedFault)
      ensures forall o :: o in Members(ResponseObjects(response)) ==>
                o.originalBoundingBox ==
                  if && response.Responded? && IsSuccessStatusCode(response.status) && response.body.Decoded?
                     && o in ResponseObjects(response)[..FirstNull(ResponseObjects(response))]
                     && old(o.boundingBox).Some?
                  then Some(ToOriginal(old(o.boundingBox).value, originalImageSize, scaledImageSize))
                  else old(o.originalBoundingBox)
      ensures forall o :: o in Members(ResponseObjects(response)) ==>
                && o.name == old(o.name) && o.confidence == old(o.confidence)
                && o.boundingBox == old(o.boundingBox) && o.renderBoundingBox == old(o.renderBoundingBox)
    {
      ghost var before := trace;
      ghost var outcome := SendOutcome(response, now, originalImageSize, scaledImageSize);
      var apiResponse := SendToRecognitionAPI(response, now);
      if apiResponse.None? {
        return;
      }
      assert outcome == Recognized(apiResponse.value);
      var thrown := ConvertCoordinatesToOriginal(apiResponse.value);
      if thrown.Some? {
        trace := trace + [ErrorRaised(thrown.value)];
        return;
      }
      trace := trace + [CoordinatesMapped, RecognitionCompleted(apiResponse.value)];
      if completedFault.Some? {
        trace := trace + [ErrorRaised(completedFault.value)];
      }
    }
  }
}
