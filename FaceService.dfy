/** The face recognition service: embeddings from a cropped face (the
    network is a given function), the same-person decision on the distance
    between two embeddings, and the quality assessment of a crop from its
    brightness and sharpness (given as numbers; computing them is numeric
    library work outside the model). */
module FaceService {
  import opened Wrappers
  import Strings

  const DefaultThreshold: real := 0.7

  type Embedding = seq<real>

  /** `get_embeddings`: no face, no embedding; otherwise what the network gives. */
  function GetEmbeddings<I>(face: Option<I>, network: I -> Call<Embedding>): (r: Call<Option<Embedding>>)
    ensures face.None? ==> r == Returned(None)
    ensures face.Some? ==> (r.Threw? <==> network(face.value).Threw?)
    ensures face.Some? && r.Returned? ==> r.value == Some(network(face.value).value)
  {
    if face.None? then Returned(None)
    else match network(face.value)
      case Threw => Threw
      case Returned(e) => Returned(Some(e))
  }

  /** `compare_faces`: without both embeddings the answer is "different, at
      distance 1"; otherwise the distance decides, strictly below the threshold. */
  function CompareFaces<E>(e1: Option<E>, e2: Option<E>, threshold: real, distance: (E, E) -> Call<real>): (r: Call<(bool, real)>)
    ensures e1.None? || e2.None? ==> r == Returned((false, 1.0))
    ensures e1.Some? && e2.Some? ==> (r.Threw? <==> distance(e1.value, e2.value).Threw?)
    ensures e1.Some? && e2.Some? && r.Returned? ==>
      r.value.1 == distance(e1.value, e2.value).value && (r.value.0 <==> r.value.1 < threshold)
  {
    if e1.None? || e2.None? then Returned((false, 1.0))
    else match distance(e1.value, e2.value)
      case Threw => Threw
      case Returned(d) => Returned((d < threshold, d))
  }

  /** A pair judged the same stays the same under any larger threshold, and a
      distance equal to the threshold is never the same person. */
  lemma ThresholdMonotone<E>(e1: E, e2: E, t1: real, t2: real, distance: (E, E) -> Call<real>)
    requires distance(e1, e2).Returned?
    ensures var r1 := CompareFaces(Some(e1), Some(e2), t1, distance);
      var r2 := CompareFaces(Some(e1), Some(e2), t2, distance);
      r1.value.0 && t1 <= t2 ==> r2.value.0
    ensures distance(e1, e2).value == t1 ==> !CompareFaces(Some(e1), Some(e2), t1, distance).value.0
  {
  }

  // ------------------------------------------------------------- quality

  datatype FaceStats = FaceStats(brightness: real, sharpness: real)

  const NoFaceMessage := "ไม่พบใบหน้าในภาพ"
  const TooDark := "ภาพมืดเกินไป เพิ่มแสงสว่าง"
  const TooBright := "ภาพสว่างเกินไป ลดแสงลง"
  const Blurry := "ภาพไม่คมชัด อาจเป็นเพราะกล้องเคลื่อนไหวหรือโฟกัสไม่ดี"
  const GoodQuality := "คุณภาพภาพดี เหมาะสำหรับการจดจำใบหน้า"
  const Separator := ", "

  /** `min(100, max(0, v))`. */
  function Clamp100(v: real): (c: real)
    ensures 0.0 <= c <= 100.0
    ensures 0.0 <= v <= 100.0 ==> c == v
    ensures v < 0.0 ==> c == 0.0
    ensures v > 100.0 ==> c == 100.0
  {
    if v > 100.0 then 100.0 else if v < 0.0 then 0.0 else v
  }

  /** The brightness score grows with the mean brightness and reaches 100 at 128. */
  function BrightnessScore(brightness: real): (s: real)
    ensures 0.0 <= s <= 100.0
    ensures 0.0 <= brightness <= 128.0 ==> s == brightness * 100.0 / 128.0
    ensures brightness >= 128.0 ==> s == 100.0
    ensures brightness <= 0.0 ==> s == 0.0
  {
    Clamp100(100.0 * (brightness / 128.0))
  }

  /** The sharpness score grows with the Laplacian's variance and reaches 100 at 500. */
  function SharpnessScore(sharpness: real): (s: real)
    ensures 0.0 <= s <= 100.0
    ensures 0.0 <= sharpness <= 500.0 ==> s == sharpness * 100.0 / 500.0
    ensures sharpness >= 500.0 ==> s == 100.0
    ensures sharpness <= 0.0 ==> s == 0.0
  {
    Clamp100(100.0 * (sharpness / 500.0))
  }

  /** The average of the two component scores. */
  function QualityScore(s: FaceStats): (q: real)
    ensures 0.0 <= q <= 100.0
  {
    (BrightnessScore(s.brightness) + SharpnessScore(s.sharpness)) / 2.0
  }

  /** The feedback messages in order: too dark or too bright, then blurry;
      the good-quality message alone when there is no problem. */
  function Feedback(s: FaceStats): (msgs: seq<string>)
    ensures |msgs| >= 1
    ensures TooDark in msgs <==> s.brightness < 50.0
    ensures TooBright in msgs <==> s.brightness > 200.0
    ensures Blurry in msgs <==> s.sharpness < 100.0
    ensures GoodQuality in msgs <==> 50.0 <= s.brightness <= 200.0 && s.sharpness >= 100.0
    ensures GoodQuality in msgs ==> msgs == [GoodQuality]
    ensures !(TooDark in msgs && TooBright in msgs)
  {
    var light := if s.brightness < 50.0 then [TooDark] else if s.brightness > 200.0 then [TooBright] else [];
    var sharp := if s.sharpness < 100.0 then [Blurry] else [];
    if light + sharp == [] then [GoodQuality] else light + sharp
  }

  /** `quality_assessment`: the feedback list and the score dictionary are
      built step by step, then averaged and joined. */
  method QualityAssessment(face: Option<FaceStats>) returns (score: real, feedback: string)
    ensures face.None? ==> score == 0.0 && feedback == NoFaceMessage
    ensures face.Some? ==> score == QualityScore(face.value)
    ensures face.Some? ==> feedback == Strings.Join(Feedback(face.value), Separator)
    ensures 0.0 <= score <= 100.0 && feedback != ""
  {
    if face.None? {
      return 0.0, NoFaceMessage;
    }
    var stats := face.value;
    var messages: seq<string> := [];
    var scores: map<string, real> := map[];

    scores := scores["brightness" := Clamp100(100.0 * (stats.brightness / 128.0))];
    if stats.brightness < 50.0 {
      messages := messages + [TooDark];
    } else if stats.brightness > 200.0 {
      messages := messages + [TooBright];
    }

    scores := scores["sharpness" := Clamp100(100.0 * (stats.sharpness / 500.0))];
    if stats.sharpness < 100.0 {
      messages := messages + [Blurry];
    }

    assert scores.Keys == {"brightness", "sharpness"};
    var total := scores["brightness"] + scores["sharpness"];
    var count := |scores|;
    assert count as real == 2.0;
    score := total / (count as real);
    assert score == QualityScore(stats);

    if messages == [] {
      messages := messages + [GoodQuality];
    }
    assert messages == Feedback(stats);
    feedback := Strings.Join(messages, Separator);
    JoinNonEmpty(messages, Separator);
  }

  /** Joining messages whose first one is non-empty gives a non-empty text. */
  lemma JoinNonEmpty(parts: seq<string>, sep: string)
    requires |parts| >= 1 && parts[0] != ""
    ensures Strings.Join(parts, sep) != ""
  {
    if |parts| > 1 {
      assert |Strings.Join(parts, sep)| >= |parts[0]|;
    }
  }
}
