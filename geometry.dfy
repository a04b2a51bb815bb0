/** Sizes, bounding boxes and the scale arithmetic of the recognizer:
    the "fit" resize computation and the mapping of a detection box from
    the 640x640 inference frame back to the captured frame.

    The source computes with single-precision floats and converts with the
    C# `(int)` cast. Here every float is an exact `real` and the cast is
    `Trunc`, which rounds toward zero like the cast does. */
module Geometry {

  /** `SizeF`: a width and a height. */
  datatype Size = Size(width: real, height: real)

  /** `BoundingBox`: an integer rectangle in some coordinate space. */
  datatype BoundingBox = BoundingBox(x: int, y: int, width: int, height: int)

  /** The C# `(int)` conversion of a floating value: rounds toward zero. */
  function Trunc(v: real): (r: int)
    ensures 0.0 <= v ==> 0 <= r && r as real <= v < r as real + 1.0
    ensures v < 0.0 ==> r <= 0 && r as real - 1.0 < v <= r as real
  {
    if 0.0 <= v then v.Floor else -((-v).Floor)
  }

  /** Multiplying one box component by a scale factor and casting to `int`
      (ObjectRecognitive.ConvertCoordinatesToOriginal). */
  function Rescale(v: int, factor: real): (r: int)
    ensures 0 <= v && 0.0 <= factor ==> 0 <= r && r as real <= v as real * factor < r as real + 1.0
    ensures v < 0 && 0.0 <= factor ==> r <= 0 && r as real - 1.0 < v as real * factor <= r as real
  {
    Trunc(v as real * factor)
  }

  /** Maps a box from the inference frame `scaled` to the captured frame
      `original`: each component is multiplied by `original / scaled` in its
      own axis and truncated. */
  function ToOriginal(b: BoundingBox, original: Size, scaled: Size): (r: BoundingBox)
    requires scaled.width != 0.0 && scaled.height != 0.0
    ensures 0 <= b.x && 0.0 <= original.width / scaled.width ==>
              r.x as real <= b.x as real * (original.width / scaled.width) < r.x as real + 1.0
    ensures 0 <= b.y && 0.0 <= original.height / scaled.height ==>
              r.y as real <= b.y as real * (original.height / scaled.height) < r.y as real + 1.0
    ensures 0 <= b.width && 0.0 <= original.width / scaled.width ==>
              r.width as real <= b.width as real * (original.width / scaled.width) < r.width as real + 1.0
    ensures 0 <= b.height && 0.0 <= original.height / scaled.height ==>
              r.height as real <= b.height as real * (original.height / scaled.height) < r.height as real + 1.0
  {
    var scaleX := original.width / scaled.width;
    var scaleY := original.height / scaled.height;
    BoundingBox(Rescale(b.x, scaleX), Rescale(b.y, scaleY),
                Rescale(b.width, scaleX), Rescale(b.height, scaleY))
  }

  /** A worked example: a box (10, 20, 100, 50) found in the
      640x640 frame of a 1920x1080 capture lies at (30, 33, 300, 84). */
  lemma ToOriginalExample()
    ensures ToOriginal(BoundingBox(10, 20, 100, 50), Size(1920.0, 1080.0), Size(640.0, 640.0))
         == BoundingBox(30, 33, 300, 84)
  {
    assert 1080.0 / 640.0 == 1.6875;
    assert Rescale(20, 1.6875) == 33 by { assert 20.0 * 1.6875 == 33.75; }
    assert Rescale(50, 1.6875) == 84 by { assert 50.0 * 1.6875 == 84.375; }
  }

  /** How far a component may move in a round trip: truncation toward zero
      loses at most one unit, downward for a non-negative component and
      upward for a negative one. */
  predicate WithinOneUnit(v: int, back: int)
  {
    if 0 <= v then v - 1 <= back <= v else v <= back <= v + 1
  }

  /** Mapping one component up by `factor >= 1` and back down by `1 / factor`
      loses at most one unit, toward zero. */
  lemma RescaleRoundTrip(v: int, factor: real)
    requires 1.0 <= factor
    ensures WithinOneUnit(v, Rescale(Rescale(v, factor), 1.0 / factor))
  {
    if 0 <= v {
      NonNegativeRoundTrip(v, factor);
    } else {
      NegativeRoundTrip(v, factor);
    }
  }

  lemma NonNegativeRoundTrip(v: int, factor: real)
    requires 0 <= v && 1.0 <= factor
    ensures var back := Rescale(Rescale(v, factor), 1.0 / factor);
            v - 1 <= back <= v
  {
    var up := Rescale(v, factor);
    var exact := v as real * factor;
    assert up as real <= exact < up as real + 1.0;
    var down := up as real * (1.0 / factor);
    assert down == up as real / factor;
    assert down <= v as real by {
      assert up as real / factor <= exact / factor;
      assert exact / factor == v as real;
    }
    assert (v - 1) as real < down by {
      assert exact - 1.0 < up as real;
      assert (exact - 1.0) / factor < up as real / factor;
      assert (exact - 1.0) / factor == v as real - 1.0 / factor;
      assert 1.0 / factor <= 1.0;
    }
  }

  lemma NegativeRoundTrip(v: int, factor: real)
    requires v < 0 && 1.0 <= factor
    ensures var back := Rescale(Rescale(v, factor), 1.0 / factor);
            v <= back <= v + 1
  {
    var up := Rescale(v, factor);
    var exact := v as real * factor;
    assert up <= 0 && exact <= up as real < exact + 1.0;
    var down := up as real * (1.0 / factor);
    assert down == up as real / factor;
    assert v as real <= down by {
      assert exact / factor <= up as real / factor;
      assert exact / factor == v as real;
    }
    assert down < (v + 1) as real by {
      assert up as real / factor < (exact + 1.0) / factor;
      assert (exact + 1.0) / factor == v as real + 1.0 / factor;
      assert 1.0 / factor <= 1.0;
    }
  }

  lemma InverseRatio(a: real, b: real)
    requires 0.0 < a && 0.0 < b
    ensures b / a == 1.0 / (a / b)
  {
  }

  /** Every component of a box comes back within one unit, toward zero,
      after a mapping to a larger original frame and the inverse mapping. */
  lemma BoxRoundTrip(b: BoundingBox, original: Size, scaled: Size)
    requires 0.0 < scaled.width <= original.width && 0.0 < scaled.height <= original.height
    ensures var back := ToOriginal(ToOriginal(b, original, scaled), scaled, original);
            && WithinOneUnit(b.x, back.x) && WithinOneUnit(b.y, back.y)
            && WithinOneUnit(b.width, back.width) && WithinOneUnit(b.height, back.height)
  {
    var sx, sy := original.width / scaled.width, original.height / scaled.height;
    QuotientAtLeastOne(original.width, scaled.width);
    QuotientAtLeastOne(original.height, scaled.height);
    InverseRatio(original.width, scaled.width);
    InverseRatio(original.height, scaled.height);
    RescaleRoundTrip(b.x, sx);
    RescaleRoundTrip(b.y, sy);
    RescaleRoundTrip(b.width, sx);
    RescaleRoundTrip(b.height, sy);
  }

  /** One axis of MappedBoxStaysInFrame. */
  lemma AxisStaysInFrame(start: int, length: int, scaledExtent: real, originalExtent: real)
    requires 0 <= start && 0 <= length && (start + length) as real <= scaledExtent
    requires 0.0 < scaledExtent && 0.0 <= originalExtent
    ensures var factor := originalExtent / scaledExtent;
            0 <= Rescale(start, factor) && 0 <= Rescale(length, factor) &&
            (Rescale(start, factor) + Rescale(length, factor)) as real <= originalExtent
  {
    var factor := originalExtent / scaledExtent;
    assert 0.0 <= factor;
    var sum := (start + length) as real;
    assert start as real * factor + length as real * factor == sum * factor;
    assert sum * factor <= scaledExtent * factor;
    assert scaledExtent * factor == originalExtent;
  }

  /** A box that lies inside the inference frame is mapped inside the
      captured frame: truncation never pushes an edge outward. */
  lemma MappedBoxStaysInFrame(b: BoundingBox, original: Size, scaled: Size)
    requires 0 <= b.x && 0 <= b.y && 0 <= b.width && 0 <= b.height
    requires (b.x + b.width) as real <= scaled.width && (b.y + b.height) as real <= scaled.height
    requires 0.0 < scaled.width && 0.0 < scaled.height && 0.0 <= original.width && 0.0 <= original.height
    ensures var r := ToOriginal(b, original, scaled);
            0 <= r.x && 0 <= r.y && 0 <= r.width && 0 <= r.height &&
            (r.x + r.width) as real <= original.width && (r.y + r.height) as real <= original.height
  {
    AxisStaysInFrame(b.x, b.width, scaled.width, original.width);
    AxisStaysInFrame(b.y, b.height, scaled.height, original.height);
  }

  function Min(a: real, b: real): (r: real)
    ensures r <= a && r <= b && (r == a || r == b)
  {
    if a <= b then a else b
  }

  lemma TruncBelowInt(v: real, n: int)
    requires v <= n as real
    ensures Trunc(v) <= n
  {
  }

  lemma TruncMonotone(u: real, v: real)
    requires 0.0 <= u <= v
    ensures Trunc(u) <= Trunc(v)
  {
  }

  /** One axis of the fit computation: a factor no larger than
      `target / extent` keeps the truncated extent within the target, and
      the factor `target / extent` itself reaches it. */
  lemma FitAxis(extent: real, target: int, scale: real)
    requires 0.0 < extent && scale <= target as real / extent
    ensures Trunc(extent * scale) <= target
    ensures scale == target as real / extent ==> Trunc(extent * scale) == target
  {
    var ratio := target as real / extent;
    assert extent * ratio == target as real;
    assert extent * scale <= extent * ratio;
    TruncBelowInt(extent * scale, target);
  }

  /** The scale factor and the new size computed by
      ObjectRecognitive.ResizeImageManually. */
  datatype Fit = Fit(scale: real, newWidth: int, newHeight: int)

  /** "Fit" resizing: one scale factor for both axes, the smaller of the two
      target-to-source ratios, and the new size truncated to integers. */
  function FitSize(width: real, height: real, targetWidth: int, targetHeight: int): (r: Fit)
    requires 0.0 < width && 0.0 < height
    // one factor for both axes: the aspect ratio is kept up to truncation
    ensures r.scale == Min(targetWidth as real / width, targetHeight as real / height)
    ensures r.newWidth == Trunc(width * r.scale) && r.newHeight == Trunc(height * r.scale)
    // the new size fits inside the target
    ensures r.newWidth <= targetWidth && r.newHeight <= targetHeight
    // the binding dimension reaches its target exactly
    ensures targetWidth as real / width <= targetHeight as real / height ==> r.newWidth == targetWidth
    ensures targetHeight as real / height <= targetWidth as real / width ==> r.newHeight == targetHeight
  {
    var scaleX := targetWidth as real / width;
    var scaleY := targetHeight as real / height;
    var scale := Min(scaleX, scaleY);
    FitAxis(width, targetWidth, scale);
    FitAxis(height, targetHeight, scale);
    Fit(scale, Trunc(width * scale), Trunc(height * scale))
  }

  lemma EnlargedAxis(extent: real, scale: real)
    requires 0.0 < extent && 1.0 <= scale
    ensures extent.Floor <= Trunc(extent * scale)
  {
    assert extent <= extent * scale;
    TruncMonotone(extent, extent * scale);
  }

  lemma ScaleAtLeastOne(width: real, height: real, targetWidth: int, targetHeight: int)
    requires 0.0 < width <= targetWidth as real && 0.0 < height <= targetHeight as real
    ensures 1.0 <= Min(targetWidth as real / width, targetHeight as real / height)
  {
    QuotientAtLeastOne(targetWidth as real, width);
    QuotientAtLeastOne(targetHeight as real, height);
  }

  lemma QuotientAtLeastOne(a: real, b: real)
    requires 0.0 < b <= a
    ensures 1.0 <= a / b
  {
  }

  /** The factor is not clamped to 1: a source smaller than the target in
      both axes is enlarged. */
  lemma FitEnlargesSmallImages(width: real, height: real, targetWidth: int, targetHeight: int)
    requires 0.0 < width <= targetWidth as real && 0.0 < height <= targetHeight as real
    ensures var r := FitSize(width, height, targetWidth, targetHeight);
            1.0 <= r.scale && width.Floor <= r.newWidth && height.Floor <= r.newHeight
  {
    ScaleAtLeastOne(width, height, targetWidth, targetHeight);
    var r := FitSize(width, height, targetWidth, targetHeight);
    EnlargedAxis(width, r.scale);
    EnlargedAxis(height, r.scale);
  }
}
