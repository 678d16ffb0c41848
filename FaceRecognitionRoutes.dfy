/** The recognition routes: `/embeddings`, `/compare` and `/quality`. Each
    handler validates the request, decodes images, picks the face of highest
    confidence (the first on ties), crops it and calls the service; any
    exception inside the handler becomes a 500 response. */
module FaceRecognitionRoutes {
  import opened Wrappers
  import opened RouteCommon
  import Strings
  import Preprocess
  import FaceService

  const NoFaceInFirst := "ไม่พบใบหน้าในรูปภาพแรก"
  const NoFaceInSecond := "ไม่พบใบหน้าในรูปภาพที่สอง"
  const SendEmbeddingsOrImages := "กรุณาส่ง embeddings หรือรูปภาพ"

  /** `max(faces, key=lambda x: x['confidence'])`: the index of the first face
      of greatest confidence. */
  function BestIndex(faces: seq<DetectedFace>): (i: nat)
    requires |faces| > 0
    ensures i < |faces|
    ensures forall j :: 0 <= j < |faces| ==> faces[j].confidence <= faces[i].confidence
    ensures forall j :: 0 <= j < i ==> faces[j].confidence < faces[i].confidence
    decreases |faces|
  {
    if |faces| == 1 then 0
    else
      var k := BestIndex(faces[..|faces| - 1]);
      if faces[|faces| - 1].confidence > faces[k].confidence then |faces| - 1 else k
  }

  /** The crop of the best face, with the default margin. */
  function BestCrop(img: Img, faces: seq<DetectedFace>): Img
    requires |faces| > 0
  {
    Preprocess.ExtractFaceAsWritten(img, faces[BestIndex(faces)].box, Preprocess.DefaultMargin)
  }

  /** `detect_faces` on a decoding result: an undecodable image raises. */
  function DetectOn(img: Option<Img>, backend: Backend): (r: Call<seq<DetectedFace>>)
    ensures img.None? ==> r == Threw
    ensures img.Some? ==> r == backend.detect(img.value)
  {
    if img.None? then Threw else backend.detect(img.value)
  }

  /** `/embeddings`. Every answer is a 200 with an embedding and a score in
      [0, 100], a 400 with one of the request errors, or the 500 of a raised
      exception. */
  function Embeddings(request: Request, backend: Backend): (r: Response)
    ensures r.status in {200, 400, 500}
    ensures r.status == 200 ==> r.body.Embeddings? && 0.0 <= r.body.score <= 100.0
    ensures r.status == 400 ==> r.body in {Error(ImageRequired), Error(Unreadable), StatusError(NoFaceInImage)}
    ensures r.status == 500 ==> r == Crashed
  {
    if "image" !in request then Response(400, Error(ImageRequired))
    else match DecodeField(request, "image", backend)
      case Threw => Crashed
      case Returned(None) => Response(400, Error(Unreadable))
      case Returned(Some(img)) =>
        match backend.detect(img)
        case Threw => Crashed
        case Returned(faces) =>
          if faces == [] then Response(400, StatusError(NoFaceInImage))
          else
            var crop := BestCrop(img, faces);
            match FaceService.GetEmbeddings(Some(crop), backend.network)
            case Threw => Crashed
            case Returned(None) => Crashed
            case Returned(Some(embedding)) =>
              match backend.stats(crop)
              case Threw => Crashed
              case Returned(stats) =>
                Response(200, Body.Embeddings(embedding, FaceService.QualityScore(stats),
                  Strings.Join(FaceService.Feedback(stats), FaceService.Separator), faces[BestIndex(faces)].box))
  }

  /** `/quality`. Every answer is a 200 with a score in [0, 100], a 400 with
      one of the request errors, or the 500 of a raised exception. */
  function Quality(request: Request, backend: Backend): (r: Response)
    ensures r.status in {200, 400, 500}
    ensures r.status == 200 ==> r.body.Quality? && 0.0 <= r.body.score <= 100.0
    ensures r.status == 400 ==> r.body in {Error(ImageRequired), Error(Unreadable), StatusError(NoFaceInImage)}
    ensures r.status == 500 ==> r == Crashed
  {
    if "image" !in request then Response(400, Error(ImageRequired))
    else match DecodeField(request, "image", backend)
      case Threw => Crashed
      case Returned(None) => Response(400, Error(Unreadable))
      case Returned(Some(img)) =>
        match backend.detect(img)
        case Threw => Crashed
        case Returned(faces) =>
          if faces == [] then Response(400, StatusError(NoFaceInImage))
          else
            match backend.stats(BestCrop(img, faces))
            case Threw => Crashed
            case Returned(stats) =>
              Response(200, Body.Quality(FaceService.QualityScore(stats),
                Strings.Join(FaceService.Feedback(stats), FaceService.Separator), faces[BestIndex(faces)].box))
  }

  /** A JSON threshold that `dist < threshold` can compare with the float64
      distance and whose result `bool` can read: a number, a boolean, or a
      list of exactly one such value, at any depth, which numpy broadcasts to
      a one-element array. For any other value the comparison or `bool`
      raises: null, a string, an object, and a list of any other length. */
  function Numeric(j: Json): (r: Option<real>)
    ensures IsScalar(j) ==> r == Some(ScalarValue(j))
    ensures j.JNull? || j.JString? || j.JObject? ==> r.None?
    ensures j.JArray? && |j.items| != 1 ==> r.None?
  {
    match j
    case JNumber(n) => Some(n)
    case JBool(b) => Some(if b then 1.0 else 0.0)
    case JArray(items) => if |items| == 1 then Numeric(items[0]) else None
    case _ => None
  }

  /** A number, or a boolean (which Python compares as 0 or 1). */
  predicate IsScalar(j: Json) { j.JNumber? || j.JBool? }

  function ScalarValue(j: Json): real
    requires IsScalar(j)
  {
    if j.JNumber? then j.n else if j.b then 1.0 else 0.0
  }

  /** `j` inside `depth` one-element lists. */
  function Nest(depth: nat, j: Json): Json
  {
    if depth == 0 then j else JArray([Nest(depth - 1, j)])
  }

  /** A scalar inside any number of one-element lists is compared as itself. */
  lemma {:induction false} NumericOfNested(depth: nat, j: Json)
    requires IsScalar(j)
    ensures Numeric(Nest(depth, j)) == Some(ScalarValue(j))
  {
    if depth > 0 {
      NumericOfNested(depth - 1, j);
    }
  }

  /** Only such values are: a usable threshold is a scalar inside one-element
      lists, and it is compared as that scalar. */
  lemma {:induction false} NumericIsNested(j: Json)
    requires Numeric(j).Some?
    ensures exists d: nat, s :: IsScalar(s) && j == Nest(d, s) && Numeric(j) == Some(ScalarValue(s))
  {
    if j.JArray? {
      var inner := j.items[0];
      NumericIsNested(inner);
      var d: nat, s :| IsScalar(s) && inner == Nest(d, s) && Numeric(inner) == Some(ScalarValue(s));
      assert j == Nest(d + 1, s);
    } else {
      assert j == Nest(0, j);
    }
  }

  /** `data.get('threshold', 0.7)`. */
  function ThresholdOf(request: Request): (t: Json)
    ensures "threshold" in request ==> t == request["threshold"]
    ensures "threshold" !in request ==> t == JNumber(0.7)
  {
    if "threshold" in request then request["threshold"] else JNumber(FaceService.DefaultThreshold)
  }

  /** An embedding as the JSON array `tolist()` gives. */
  function AsJson(e: FaceService.Embedding): Json
  {
    JArray(seq(|e|, i requires 0 <= i < |e| => JNumber(e[i])))
  }

  /** The end of `/compare`: the service decides on the two embeddings; the
      answer is never a 400, and it is a 200 exactly when the distance is
      computed and the threshold can be compared with it. */
  function Decide(request: Request, e1: Json, e2: Json, backend: Backend): (r: Response)
    ensures r.status == 200 || r == Crashed
    ensures r.status == 200 <==> Numeric(ThresholdOf(request)).Some? && backend.distance(e1, e2).Returned?
    ensures r.status == 200 ==>
      var d := backend.distance(e1, e2).value;
      r.body == Comparison(d < Numeric(ThresholdOf(request)).value, 1.0 - d, d, ThresholdOf(request))
  {
    var threshold := ThresholdOf(request);
    match Numeric(threshold)
    case None => Crashed
    case Some(t) =>
      match FaceService.CompareFaces(Some(e1), Some(e2), t, backend.distance)
      case Threw => Crashed
      case Returned((same, d)) => Response(200, Comparison(same, 1.0 - d, d, threshold))
  }

  /** `/compare`: embeddings if both are given, else images if both are given,
      else 400. With images, both are decoded, then faces are detected and
      cropped in the first image and then in the second, and only then are
      the two embeddings computed, the first before the second. */
  function Compare(request: Request, backend: Backend): (r: Response)
    ensures r.status in {200, 400, 500}
    ensures r.status == 200 ==> r.body.Comparison?
    ensures r.status == 400 ==> r.body in {Error(NoFaceInFirst), Error(NoFaceInSecond), Error(SendEmbeddingsOrImages)}
    ensures r.status == 500 ==> r == Crashed
  {
    if "embedding1" in request && "embedding2" in request then
      Decide(request, request["embedding1"], request["embedding2"], backend)
    else if "image1" in request && "image2" in request then
      match DecodeField(request, "image1", backend)
      case Threw => Crashed
      case Returned(img1) =>
        match DecodeField(request, "image2", backend)
        case Threw => Crashed
        case Returned(img2) =>
          match DetectOn(img1, backend)
          case Threw => Crashed
          case Returned(faces1) =>
            if faces1 == [] then Response(400, Error(NoFaceInFirst))
            else
              match DetectOn(img2, backend)
              case Threw => Crashed
              case Returned(faces2) =>
                if faces2 == [] then Response(400, Error(NoFaceInSecond))
                else
                  match FaceService.GetEmbeddings(Some(BestCrop(img1.value, faces1)), backend.network)
                  case Threw => Crashed
                  case Returned(e1) =>
                    match FaceService.GetEmbeddings(Some(BestCrop(img2.value, faces2)), backend.network)
                    case Threw => Crashed
                    case Returned(e2) =>
                      assert e1.Some? && e2.Some?;
                      Decide(request, AsJson(e1.value), AsJson(e2.value), backend)
    else Response(400, Error(SendEmbeddingsOrImages))
  }

  // ------------------------------------------------------------- properties

  /** The image of a request, once decoded, if it decoded. */
  function DecodedImage(request: Request, backend: Backend): Option<Img>
  {
    if "image" in request then
      match DecodeField(request, "image", backend)
      case Returned(Some(img)) => Some(img)
      case _ => None
    else None
  }

  /** Why an image request is rejected: the key is missing, the image does
      not decode, or no face is found in it. */
  predicate ImageMissing(request: Request) { "image" !in request }

  predicate ImageUnreadable(request: Request, backend: Backend)
  {
    "image" in request && DecodeField(request, "image", backend) == Returned(None)
  }

  predicate ImageFaceless(request: Request, backend: Backend)
  {
    var img := DecodedImage(request, backend);
    img.Some? && backend.detect(img.value) == Returned([])
  }

  /** `/embeddings` answers 400 exactly when the image key is missing, the
      image is undecodable or no face is found, each with its own body (only
      the last carries an error status); everything else is 200 or 500. */
  lemma EmbeddingsRejects(request: Request, backend: Backend)
    ensures var e := Embeddings(request, backend);
      (e.status == 400 <==> ImageMissing(request) || ImageUnreadable(request, backend) || ImageFaceless(request, backend)) &&
      (ImageMissing(request) ==> e.body == Error(ImageRequired)) &&
      (ImageUnreadable(request, backend) ==> e.body == Error(Unreadable)) &&
      (ImageFaceless(request, backend) ==> e.body == StatusError(NoFaceInImage)) &&
      e.status in {200, 400, 500}
  {
  }

  /** `/quality` rejects in exactly the same cases, with the same bodies. */
  lemma QualityRejects(request: Request, backend: Backend)
    ensures var q := Quality(request, backend);
      (q.status == 400 <==> ImageMissing(request) || ImageUnreadable(request, backend) || ImageFaceless(request, backend)) &&
      (ImageMissing(request) ==> q.body == Error(ImageRequired)) &&
      (ImageUnreadable(request, backend) ==> q.body == Error(Unreadable)) &&
      (ImageFaceless(request, backend) ==> q.body == StatusError(NoFaceInImage)) &&
      q.status in {200, 400, 500}
  {
  }

  /** A successful `/embeddings` answer describes the first face of highest
      confidence: its box, the network's embedding of its crop and the
      quality of that crop, with a score in [0, 100] and a non-empty text. */
  lemma EmbeddingsDescribeBestFace(request: Request, backend: Backend)
    requires Embeddings(request, backend).status == 200
    ensures var img := DecodedImage(request, backend);
      img.Some? && backend.detect(img.value).Returned? &&
      var faces := backend.detect(img.value).value;
      var b := Embeddings(request, backend).body;
      exists i :: 0 <= i < |faces| &&
        (forall j :: 0 <= j < |faces| ==> faces[j].confidence <= faces[i].confidence) &&
        (forall j :: 0 <= j < i ==> faces[j].confidence < faces[i].confidence) &&
        b.faceBox == faces[i].box &&
        var crop := Preprocess.ExtractFaceAsWritten(img.value, faces[i].box, Preprocess.DefaultMargin);
        backend.network(crop) == Returned(b.embedding) &&
        backend.stats(crop).Returned? &&
        b.score == FaceService.QualityScore(backend.stats(crop).value) &&
        b.feedback == Strings.Join(FaceService.Feedback(backend.stats(crop).value), FaceService.Separator) &&
        0.0 <= b.score <= 100.0 && b.feedback != ""
  {
    var img := DecodedImage(request, backend);
    var faces := backend.detect(img.value).value;
    var i := BestIndex(faces);
    var crop := BestCrop(img.value, faces);
    var stats := backend.stats(crop).value;
    FaceService.JoinNonEmpty(FaceService.Feedback(stats), FaceService.Separator);
    assert Embeddings(request, backend).body.faceBox == faces[i].box;
  }

  /** A successful `/quality` answer describes the first face of highest
      confidence: its box, and the quality score and feedback of its crop. */
  lemma QualityDescribesBestFace(request: Request, backend: Backend)
    requires Quality(request, backend).status == 200
    ensures var img := DecodedImage(request, backend);
      img.Some? && backend.detect(img.value).Returned? &&
      var faces := backend.detect(img.value).value;
      var b := Quality(request, backend).body;
      exists i :: 0 <= i < |faces| &&
        (forall j :: 0 <= j < |faces| ==> faces[j].confidence <= faces[i].confidence) &&
        (forall j :: 0 <= j < i ==> faces[j].confidence < faces[i].confidence) &&
        b.faceBox == faces[i].box &&
        var crop := Preprocess.ExtractFaceAsWritten(img.value, faces[i].box, Preprocess.DefaultMargin);
        backend.stats(crop).Returned? &&
        b.score == FaceService.QualityScore(backend.stats(crop).value) &&
        b.feedback == Strings.Join(FaceService.Feedback(backend.stats(crop).value), FaceService.Separator)
  {
    var img := DecodedImage(request, backend);
    var faces := backend.detect(img.value).value;
    assert Quality(request, backend).body.faceBox == faces[BestIndex(faces)].box;
  }

  /** `/compare` dispatch. Two embeddings are never rejected with 400 and make
      the image fields irrelevant; without both embeddings or both images the
      request is rejected. */
  lemma CompareDispatch(request: Request, backend: Backend)
    ensures "embedding1" in request && "embedding2" in request ==>
      Compare(request, backend).status != 400 &&
      Compare(request, backend) == Compare(request - {"image1", "image2"}, backend)
    ensures !("embedding1" in request && "embedding2" in request) && !("image1" in request && "image2" in request) ==>
      Compare(request, backend) == Response(400, Error(SendEmbeddingsOrImages))
  {
    if "embedding1" in request && "embedding2" in request {
      var other := request - {"image1", "image2"};
      assert other["embedding1"] == request["embedding1"] && other["embedding2"] == request["embedding2"];
      assert ThresholdOf(other) == ThresholdOf(request);
    }
  }

  /** `/compare` with two images and no pair of embeddings: a face missing
      from the first image is reported before anything about the second, a
      face missing from the second is reported whatever the embedding calls
      would do, and an image that does not decode ends in 500 (detection
      raises on it) rather than in the 400 of the other routes. */
  lemma CompareImagePath(request: Request, backend: Backend)
    requires !("embedding1" in request && "embedding2" in request)
    requires "image1" in request && "image2" in request
    requires DecodeField(request, "image1", backend).Returned? && DecodeField(request, "image2", backend).Returned?
    ensures var img1, img2 := DecodeField(request, "image1", backend).value, DecodeField(request, "image2", backend).value;
      var r := Compare(request, backend);
      (DetectOn(img1, backend) == Returned([]) ==> r == Response(400, Error(NoFaceInFirst))) &&
      ((DetectOn(img1, backend).Returned? && DetectOn(img1, backend).value != [] &&
        DetectOn(img2, backend) == Returned([])) ==> r == Response(400, Error(NoFaceInSecond))) &&
      (img1.None? || (img2.None? && DetectOn(img1, backend) != Returned([])) ==> r == Crashed) &&
      (r.status == 400 <==> r.body == Error(NoFaceInFirst) || r.body == Error(NoFaceInSecond))
  {
  }

  /** A successful comparison reports confidence 1 - distance, the same-person
      decision strictly below the threshold, and echoes the threshold, which
      is 0.7 when the request has none. */
  lemma ComparisonReport(request: Request, backend: Backend)
    requires Compare(request, backend).status == 200
    ensures var b := Compare(request, backend).body;
      b.Comparison? && b.confidence == 1.0 - b.distance && b.threshold == ThresholdOf(request) &&
      Numeric(b.threshold).Some? && (b.isSamePerson <==> b.distance < Numeric(b.threshold).value) &&
      ("threshold" !in request ==> b.threshold == JNumber(0.7))
    ensures "embedding1" in request && "embedding2" in request ==>
      backend.distance(request["embedding1"], request["embedding2"]) == Returned(Compare(request, backend).body.distance)
  {
  }
}
