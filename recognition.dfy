/** The data classes of the recognizer (RecognitionResult, RecognizedObject,
    BoundingBox) and the pure part of the recognition round trip: how a
    decoded response becomes a result, and how the outcome of the HTTP call
    is classified into "result", "silently nothing" and "error". */
module Recognition {
  import opened Wrappers
  import opened Geometry

  newtype byte = x: int | 0 <= x < 256

  /** The exception types the pipeline meets; only the type is kept. */
  datatype Exception =
    | InvalidOperationException
    | HttpRequestException
    | TaskCanceledException
    | JsonException
    | NullReferenceException
    | ArgumentOutOfRangeException
    | OtherException(typeName: string)

  /** `DateTime.Now`, read by the caller and passed in. */
  type Timestamp = int

  /** `RecognizedObject`: one detection. The coordinate mapping assigns
      `originalBoundingBox` in place, so this is a class. A `None` box is a
      `null` property. */
  class RecognizedObject {
    var name: string
    var confidence: real
    var boundingBox: Option<BoundingBox>
    var originalBoundingBox: Option<BoundingBox>
    var renderBoundingBox: Option<BoundingBox>

    /** The object as the JSON deserializer fills it in. */
    constructor (name: string, confidence: real, boundingBox: Option<BoundingBox>,
                 originalBoundingBox: Option<BoundingBox>, renderBoundingBox: Option<BoundingBox>)
      ensures this.name == name && this.confidence == confidence
      ensures this.boundingBox == boundingBox && this.originalBoundingBox == originalBoundingBox
      ensures this.renderBoundingBox == renderBoundingBox
    {
      this.name := name;
      this.confidence := confidence;
      this.boundingBox := boundingBox;
      this.originalBoundingBox := originalBoundingBox;
      this.renderBoundingBox := renderBoundingBox;
    }
  }

  /** `RecognitionResult`. The list holds references: a JSON `null` element
      is a `null` entry. The result itself is never updated after it is
      built; only the objects it refers to are. */
  datatype RecognitionResult = RecognitionResult(
    timestamp: Timestamp,
    objects: seq<RecognizedObject?>,
    originalImageSize: Size,
    scaledImageSize: Size,
    renderedImageSize: Size)

  /** The objects a list refers to. */
  function Members(objects: seq<RecognizedObject?>): (s: set<RecognizedObject>)
  {
    set o: RecognizedObject | o in objects
  }

  /** Index of the first `null` entry, or the length when there is none:
      the point where a walk over the list that dereferences every entry
      throws. */
  function FirstNull(objects: seq<RecognizedObject?>): (k: nat)
    ensures k <= |objects|
    ensures null !in objects[..k]
    ensures k < |objects| ==> objects[k] == null
  {
    if |objects| == 0 || objects[0] == null then 0
    else
      assert objects[1..][..FirstNull(objects[1..])] == objects[1..1 + FirstNull(objects[1..])];
      1 + FirstNull(objects[1..])
  }

  /** What `JsonSerializer.Deserialize<List<RecognizedObject>>` produced for
      the response body: a list, `null` (the JSON text `null`), or an
      exception. The deserializer itself is not modelled. */
  datatype Decoded = Decoded(list: Option<seq<RecognizedObject?>>) | DecodeFailed(error: Exception)

  /** What `HttpClient.PostAsync` and reading the body produced: a response
      with its status code and what decoding its body yields (consulted only
      for a success status), or an exception (network failure, time-out,
      anything else). */
  datatype HttpOutcome = Responded(status: int, body: Decoded) | Thrown(error: Exception)

  /** `HttpResponseMessage.IsSuccessStatusCode`. */
  predicate IsSuccessStatusCode(status: int)
  {
    200 <= status <= 299
  }

  /** ParseRecognitionResponse: the decoded list, or an empty one for
      `null`, stamped with the time and the two image sizes current at
      parse time; a decoding exception is re-thrown unchanged. */
  function ParseRecognitionResponse(body: Decoded, now: Timestamp, originalImageSize: Size, scaledImageSize: Size)
    : (r: Result<RecognitionResult, Exception>)
    ensures r.Failure? <==> body.DecodeFailed?
    ensures r.Failure? ==> r.error == body.error
    ensures r.Success? ==> r.value.objects == (if body.list.Some? then body.list.value else [])
    ensures r.Success? ==> r.value.timestamp == now
    ensures r.Success? ==> r.value.originalImageSize == originalImageSize && r.value.scaledImageSize == scaledImageSize
    ensures r.Success? ==> r.value.renderedImageSize == Size(0.0, 0.0)
  {
    match body
    case DecodeFailed(e) => Failure(e)
    case Decoded(list) =>
      Success(RecognitionResult(
        now,
        match list { case Some(objects) => objects case None => [] },
        originalImageSize,
        scaledImageSize,
        Size(0.0, 0.0)))
  }

  /** The three ways SendToRecognitionAPI can end. */
  datatype ApiOutcome =
    | Recognized(result: RecognitionResult)  // a result is returned
    | Rejected(status: int)                  // `null` is returned, nothing is raised
    | Failed(error: Exception)               // OnError is raised, `null` is returned

  /** The objects a response would deliver to the caller. */
  function ResponseObjects(response: HttpOutcome): (r: seq<RecognizedObject?>)
  {
    if response.Responded? && IsSuccessStatusCode(response.status)
       && response.body.Decoded? && response.body.list.Some?
    then response.body.list.value
    else []
  }

  /** How SendToRecognitionAPI classifies the outcome of the request. */
  function SendOutcome(response: HttpOutcome, now: Timestamp, originalImageSize: Size, scaledImageSize: Size)
    : (r: ApiOutcome)
    // a non-success status is silent
    ensures r.Rejected? <==> response.Responded? && !IsSuccessStatusCode(response.status)
    ensures r.Rejected? ==> r.status == response.status
    // every exception, the re-thrown parse failure included, is reported
    ensures r.Failed? <==> response.Thrown? || (IsSuccessStatusCode(response.status) && response.body.DecodeFailed?)
    ensures r.Failed? && response.Thrown? ==> r.error == response.error
    ensures r.Failed? && response.Responded? ==> r.error == response.body.error
    ensures r.Recognized? ==>
              && r.result.objects == ResponseObjects(response)
              && r.result.timestamp == now
              && r.result.originalImageSize == originalImageSize
              && r.result.scaledImageSize == scaledImageSize
  {
    match response
    case Thrown(e) => Failed(e)
    case Responded(status, body) =>
      if IsSuccessStatusCode(status) then
        match ParseRecognitionResponse(body, now, originalImageSize, scaledImageSize)
        case Success(result) => Recognized(result)
        case Failure(e) => Failed(e)
      else Rejected(status)
  }
}
