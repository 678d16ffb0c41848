/** What the AI server's routes share: the JSON request values, the stripping
    of a data-URL prefix from a Base64 image, the detector's face records,
    the response bodies and the foreign calls a handler makes. */
module RouteCommon {
  import opened Wrappers
  import Strings
  import Preprocess
  import FaceService

  /** A JSON value of a request body. */
  datatype Json =
    | JNull
    | JBool(b: bool)
    | JNumber(n: real)
    | JString(s: string)
    | JArray(items: seq<Json>)
    | JObject(fields: map<string, Json>)

  /** `request.json`. */
  type Request = map<string, Json>

  const ImageRequired := "กรุณาส่งรูปภาพในรูปแบบ Base64"
  const Unreadable := "ไม่สามารถอ่านรูปภาพได้"
  const NoFaceInImage := "ไม่พบใบหน้าในรูปภาพ"

  /** `image_data.split(',')[1] if ',' in image_data else image_data`. */
  function StripPrefix(s: string): (r: string)
    ensures ',' !in s ==> r == s
    ensures ',' !in r
  {
    if ',' in s then
      Strings.SplitHasTwo(s, ',');
      Strings.Split(s, ',')[1]
    else s
  }

  /** With a comma, the result is the text between the first comma and the
      next one (or the end). */
  lemma StripBetweenCommas(s: string, i: int)
    requires 0 <= i < |s| && s[i] == ',' && ',' !in s[..i]
    ensures var r := StripPrefix(s);
      i + 1 + |r| <= |s| && s[i + 1 .. i + 1 + |r|] == r &&
      (i + 1 + |r| == |s| || s[i + 1 + |r|] == ',')
  {
    var a, b := s[..i], s[i + 1..];
    assert s == a + [','] + b;
    assert ',' in s by { assert s[i] == ','; }
    Strings.SplitAfter(a, ',', b);
    var r := StripPrefix(s);
    assert r == Strings.Split(b, ',')[0];
    Strings.SplitFirstIsPrefix(b, ',');
    assert s[i + 1 .. i + 1 + |r|] == b[..|r|];
  }

  const JpegPrefix := "data:image/jpeg;base64"

  /** The prefix a client puts before a Base64 payload (which has no comma)
      is removed exactly. */
  lemma StripDataUrl(payload: string)
    requires ',' !in payload
    ensures StripPrefix(JpegPrefix + "," + payload) == payload
  {
    assert ',' !in JpegPrefix;
    assert JpegPrefix + "," + payload == JpegPrefix + [','] + payload;
    Strings.SplitAfter(JpegPrefix, ',', payload);
    Strings.SplitNoSeparator(payload, ',');
  }

  /** A detector landmark. */
  datatype Point = Point(x: int, y: int)

  /** One face as the detector reports it. */
  datatype DetectedFace = DetectedFace(box: Preprocess.Box, confidence: real, keypoints: map<string, Point>)

  /** The face record a detection response carries. */
  datatype FaceResult = FaceResult(box: Preprocess.Box, confidence: real, landmarks: map<string, Point>)

  /** The response bodies of the routes. */
  datatype Body =
    | Error(error: string)
    | StatusError(message: string)
    /** `{"error": str(e)}` after an exception; the text is not modelled. */
    | Exception
    | Embeddings(embedding: FaceService.Embedding, score: real, feedback: string, faceBox: Preprocess.Box)
    | Comparison(isSamePerson: bool, confidence: real, distance: real, threshold: Json)
    | Quality(score: real, feedback: string, faceBox: Preprocess.Box)
    | Detection(faces: seq<FaceResult>, count: nat)

  datatype Response = Response(status: int, body: Body)

  const Crashed := Response(500, Exception)

  /** An image is a grid of pixels; a pixel is its channel values. */
  type Pixel = seq<int>
  type Img = Preprocess.Image<Pixel>

  /** The calls a handler makes into code outside the model: Base64 and image
      decoding (an undecodable image is `None`), detection, the embedding
      network, the brightness and sharpness of a crop, and the distance
      between two embeddings as JSON values. */
  datatype Backend = Backend(
    decode: string -> Call<Option<Img>>,
    detect: Img -> Call<seq<DetectedFace>>,
    network: Img -> Call<FaceService.Embedding>,
    stats: Img -> Call<FaceService.FaceStats>,
    distance: (Json, Json) -> Call<real>)

  /** The image of the request's `key` field, after stripping and decoding;
      a value that is not a string raises before it is decoded. */
  function DecodeField(request: Request, key: string, backend: Backend): (r: Call<Option<Img>>)
    requires key in request
    ensures !request[key].JString? ==> r == Threw
    ensures request[key].JString? ==> r == backend.decode(StripPrefix(request[key].s))
  {
    match request[key]
    case JString(s) => backend.decode(StripPrefix(s))
    case _ => Threw
  }
}
