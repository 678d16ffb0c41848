/** Cropping a detected face out of an image: the margin-expanded box is
    clamped to the image and the image is sliced. An image is a sequence of
    rows of pixels with a common width; slicing follows Python's rules for
    slice bounds, where a negative bound counts from the end. */
module Preprocess {

  const DefaultMargin := 20

  /** A face box `[x, y, width, height]` as the detector reports it. */
  datatype Box = Box(x: int, y: int, width: int, height: int)

  /** An image of `|rows|` rows; `width` is the second dimension of its shape. */
  datatype Image<P> = Image(rows: seq<seq<P>>, width: nat)

  predicate Rectangular<P>(img: Image<P>)
  {
    forall r :: 0 <= r < |img.rows| ==> |img.rows[r]| == img.width
  }

  function Max(a: int, b: int): int { if a >= b then a else b }
  function Min(a: int, b: int): int { if a <= b then a else b }

  /** The clamped crop edges `x1, y1, x2, y2`. */
  datatype Bounds = Bounds(x1: int, y1: int, x2: int, y2: int)

  /** Left and top edges are the expanded box's, raised to 0; right and
      bottom edges are the expanded box's, lowered to the image size. */
  function CropBounds(box: Box, imgWidth: int, imgHeight: int, margin: int): (b: Bounds)
    ensures b.x1 >= 0 && b.y1 >= 0
    ensures b.x2 <= imgWidth && b.y2 <= imgHeight
    ensures b.x1 >= box.x - margin && (b.x1 == 0 || b.x1 == box.x - margin)
    ensures b.y1 >= box.y - margin && (b.y1 == 0 || b.y1 == box.y - margin)
    ensures b.x2 <= box.x + box.width + margin && (b.x2 == imgWidth || b.x2 == box.x + box.width + margin)
    ensures b.y2 <= box.y + box.height + margin && (b.y2 == imgHeight || b.y2 == box.y + box.height + margin)
  {
    Bounds(
      Max(0, box.x - margin),
      Max(0, box.y - margin),
      Min(imgWidth, box.x + box.width + margin),
      Min(imgHeight, box.y + box.height + margin))
  }

  /** A margin-expanded box inside the image is not clamped at all. */
  lemma CropBoundsInside(box: Box, imgWidth: int, imgHeight: int, margin: int)
    requires 0 <= box.x - margin && box.x + box.width + margin <= imgWidth
    requires 0 <= box.y - margin && box.y + box.height + margin <= imgHeight
    ensures CropBounds(box, imgWidth, imgHeight, margin) ==
      Bounds(box.x - margin, box.y - margin, box.x + box.width + margin, box.y + box.height + margin)
  {
  }

  /** Python's normalisation of a slice bound for a sequence of length `len`. */
  function PyBound(i: int, len: nat): (k: nat)
    ensures k <= len
    ensures 0 <= i <= len ==> k == i
    ensures i > len ==> k == len
    ensures i < 0 ==> k == Max(0, i + len)
  {
    if i < 0 then (if i + len < 0 then 0 else i + len)
    else if i > len then len
    else i
  }

  /** `s[start:stop]`. */
  function PySlice<T>(s: seq<T>, start: int, stop: int): (r: seq<T>)
    ensures |r| == Max(0, PyBound(stop, |s|) - PyBound(start, |s|))
  {
    var a, b := PyBound(start, |s|), PyBound(stop, |s|);
    if a <= b then s[a..b] else []
  }

  /** `img[y1:y2, x1:x2]`. */
  function Crop<P>(img: Image<P>, y1: int, y2: int, x1: int, x2: int): (c: Image<P>)
    ensures c.width == Max(0, PyBound(x2, img.width) - PyBound(x1, img.width))
  {
    var rows := PySlice(img.rows, y1, y2);
    Image(seq(|rows|, k requires 0 <= k < |rows| => PySlice(rows[k], x1, x2)),
          Max(0, PyBound(x2, img.width) - PyBound(x1, img.width)))
  }

  /** `extract_face` as written: the clamped edges go straight into the slice,
      so a right or bottom edge below zero counts from the far side. */
  function ExtractFaceAsWritten<P>(img: Image<P>, box: Box, margin: int): (c: Image<P>)
    ensures c.width <= img.width && |c.rows| <= |img.rows|
  {
    var b := CropBounds(box, img.width, |img.rows|, margin);
    Crop(img, b.y1, b.y2, b.x1, b.x2)
  }

  /** The length of `[lo, hi)` inside `[0, len)`. */
  function Overlap(lo: int, hi: int, len: nat): nat
  {
    Max(0, Min(hi, len) - Max(lo, 0))
  }

  /** `extract_face` as intended: a right or bottom edge below zero is taken as
      zero, so the crop is the part of the image inside the expanded box. */
  function ExtractFace<P>(img: Image<P>, box: Box, margin: int): (c: Image<P>)
    ensures |c.rows| == Overlap(box.y - margin, box.y + box.height + margin, |img.rows|)
    ensures c.width == Overlap(box.x - margin, box.x + box.width + margin, img.width)
  {
    var b := CropBounds(box, img.width, |img.rows|, margin);
    Crop(img, b.y1, Max(0, b.y2), b.x1, Max(0, b.x2))
  }

  /** The intended crop is exactly the image inside the margin-expanded box:
      its size is the overlap in each direction and its pixels are the
      image's, shifted by the clamped top-left corner. */
  lemma ExtractFaceIsIntersection<P>(img: Image<P>, box: Box, margin: int)
    requires Rectangular(img)
    ensures var c := ExtractFace(img, box, margin);
      var b := CropBounds(box, img.width, |img.rows|, margin);
      var h := Overlap(box.y - margin, box.y + box.height + margin, |img.rows|);
      var w := Overlap(box.x - margin, box.x + box.width + margin, img.width);
      |c.rows| == h && c.width == w && Rectangular(c) &&
      (h > 0 ==> b.y1 + h <= |img.rows|) && (w > 0 ==> b.x1 + w <= img.width) &&
      forall r :: 0 <= r < h && w > 0 ==> c.rows[r] == img.rows[b.y1 + r][b.x1 .. b.x1 + w]
  {
    var b := CropBounds(box, img.width, |img.rows|, margin);
    var y2, x2 := Max(0, b.y2), Max(0, b.x2);
    var h := Overlap(box.y - margin, box.y + box.height + margin, |img.rows|);
    var w := Overlap(box.x - margin, box.x + box.width + margin, img.width);
    assert ExtractFace(img, box, margin) == Crop(img, b.y1, y2, b.x1, x2);
    CropRectangular(img, b.y1, y2, b.x1, x2);
    if h > 0 && w > 0 {
      assert b.y1 + h == y2 && b.x1 + w == x2;
      CropInRange(img, b.y1, y2, b.x1, x2);
    }
  }

  /** A crop of a rectangular image is rectangular, with Python's slice length
      as height. */
  lemma CropRectangular<P>(img: Image<P>, y1: int, y2: int, x1: int, x2: int)
    requires Rectangular(img)
    ensures var c := Crop(img, y1, y2, x1, x2);
      Rectangular(c) && |c.rows| == Max(0, PyBound(y2, |img.rows|) - PyBound(y1, |img.rows|))
  {
    var rows := PySlice(img.rows, y1, y2);
    var c := Crop(img, y1, y2, x1, x2);
    forall r | 0 <= r < |c.rows| ensures |c.rows[r]| == c.width {
      assert c.rows[r] == PySlice(rows[r], x1, x2);
      assert |rows[r]| == img.width;
    }
  }

  /** With bounds inside the image, a crop holds the pixels between them. */
  lemma CropInRange<P>(img: Image<P>, y1: int, y2: int, x1: int, x2: int)
    requires Rectangular(img)
    requires 0 <= y1 <= y2 <= |img.rows| && 0 <= x1 <= x2 <= img.width
    ensures var c := Crop(img, y1, y2, x1, x2);
      |c.rows| == y2 - y1 && forall r :: 0 <= r < y2 - y1 ==> c.rows[r] == img.rows[y1 + r][x1 .. x2]
  {
    var rows := PySlice(img.rows, y1, y2);
    assert rows == img.rows[y1..y2];
    var c := Crop(img, y1, y2, x1, x2);
    forall r | 0 <= r < y2 - y1 ensures c.rows[r] == img.rows[y1 + r][x1 .. x2] {
      assert c.rows[r] == PySlice(rows[r], x1, x2);
      assert rows[r] == img.rows[y1 + r];
    }
  }

  /** A box entirely off the image gives an empty crop. */
  lemma OffImageIsEmpty<P>(img: Image<P>, box: Box, margin: int)
    requires Rectangular(img)
    requires box.x + box.width + margin <= 0 || box.x - margin >= img.width ||
             box.y + box.height + margin <= 0 || box.y - margin >= |img.rows|
    ensures var c := ExtractFace(img, box, margin); c.rows == [] || c.width == 0
  {
    ExtractFaceIsIntersection(img, box, margin);
  }

  /** When the expanded box does not end before the image starts, the code as
      written and the intended crop agree. */
  lemma AsWrittenAgrees<P>(img: Image<P>, box: Box, margin: int)
    requires box.x + box.width + margin >= 0 && box.y + box.height + margin >= 0
    ensures ExtractFaceAsWritten(img, box, margin) == ExtractFace(img, box, margin)
  {
  }

  /** A 100-pixel-wide, one-row image and a box whose expanded span is
      [-80, -5): the code as written crops 95 columns, the intended crop none. */
  lemma AsWrittenWrapsAround()
    ensures var img := Image([seq(100, _ => 0)], 100);
      var box := Box(-60, 0, 35, 1);
      ExtractFaceAsWritten(img, box, DefaultMargin).width == 95 &&
      |ExtractFaceAsWritten(img, box, DefaultMargin).rows[0]| == 95 &&
      ExtractFace(img, box, DefaultMargin).width == 0
  {
    var img := Image([seq(100, _ => 0)], 100);
    var box := Box(-60, 0, 35, 1);
    assert CropBounds(box, 100, 1, DefaultMargin) == Bounds(0, 0, -5, 1);
  }
}
