/** The detection route: validate the request, strip and decode the image,
    detect faces and map every detected face to a result record in a loop. */
module FaceDetectionRoute {
  import opened Wrappers
  import opened RouteCommon

  /** The five landmark names copied from the detector's keypoints. */
  const LandmarkKeys: set<string> := {"left_eye", "right_eye", "nose", "mouth_left", "mouth_right"}

  predicate HasLandmarks(f: DetectedFace)
  {
    LandmarkKeys <= f.keypoints.Keys
  }

  /** The record of one face: its box and confidence, and exactly the five
      landmarks taken from its keypoints. */
  function ResultOf(f: DetectedFace): (r: FaceResult)
    requires HasLandmarks(f)
    ensures r.box == f.box && r.confidence == f.confidence
    ensures r.landmarks.Keys == LandmarkKeys
    ensures forall k :: k in LandmarkKeys ==> r.landmarks[k] == f.keypoints[k]
  {
    FaceResult(f.box, f.confidence, map k | k in LandmarkKeys :: f.keypoints[k])
  }

  /** The records of all faces, in detection order. */
  function Results(faces: seq<DetectedFace>): (rs: seq<FaceResult>)
    requires forall i :: 0 <= i < |faces| ==> HasLandmarks(faces[i])
    ensures |rs| == |faces|
    ensures forall i :: 0 <= i < |faces| ==> rs[i] == ResultOf(faces[i])
  {
    seq(|faces|, i requires 0 <= i < |faces| => ResultOf(faces[i]))
  }

  /** `detect`. A face without one of the landmarks raises (`KeyError`). */
  method Detect(request: Request, backend: Backend) returns (r: Response)
    ensures "image" !in request ==> r == Response(400, Error(ImageRequired))
    ensures "image" in request ==>
      var decoded := DecodeField(request, "image", backend);
      if decoded.Threw? then r == Crashed
      else if decoded.value.None? then r == Response(400, Error(Unreadable))
      else
        var detected := backend.detect(decoded.value.value);
        if detected.Threw? then r == Crashed
        else if forall i :: 0 <= i < |detected.value| ==> HasLandmarks(detected.value[i]) then
          r == Response(200, Detection(Results(detected.value), |detected.value|))
        else r == Crashed
  {
    if "image" !in request {
      return Response(400, Error(ImageRequired));
    }
    var decoded := DecodeField(request, "image", backend);
    if decoded.Threw? {
      return Crashed;
    }
    if decoded.value.None? {
      return Response(400, Error(Unreadable));
    }
    var detected := backend.detect(decoded.value.value);
    if detected.Threw? {
      return Crashed;
    }
    var faces := detected.value;
    var results: seq<FaceResult> := [];
    var i := 0;
    while i < |faces|
      invariant 0 <= i <= |faces|
      invariant forall j :: 0 <= j < i ==> HasLandmarks(faces[j])
      invariant |results| == i
      invariant forall j :: 0 <= j < i ==> results[j] == ResultOf(faces[j])
    {
      var face := faces[i];
      if !HasLandmarks(face) {
        return Crashed;
      }
      var landmarks := map k | k in LandmarkKeys :: face.keypoints[k];
      results := results + [FaceResult(face.box, face.confidence, landmarks)];
      i := i + 1;
    }
    assert results == Results(faces);
    r := Response(200, Detection(results, |results|));
  }
}
