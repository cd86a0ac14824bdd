/**
 * The pre-processing step before detection: an image whose longer side
 * exceeds 720 pixels is scaled down so that its longer side is exactly 720,
 * keeping the aspect ratio and truncating the shorter side.
 */
module Resize {
  import opened Vision

  /** The bound on the longer side of the image handed to the detector. */
  const MaxSide: nat := 720

  /** What the resize step does with an image of a given size. */
  datatype Plan = Keep | Scale(width: nat, height: nat)

  /**
   * The dimension rule of resizeImageForFaceDetection, in exact integer
   * arithmetic: the source truncates 720 / (width / height) and
   * 720 * (width / height), which is floor(720 * height / width) and
   * floor(720 * width / height). The divisor is the longer side, which is
   * over 720 whenever it is used, so no size is ever divided by zero.
   */
  function ResizePlan(width: nat, height: nat): (p: Plan)
    ensures p == Keep <==> width <= MaxSide && height <= MaxSide
  {
    if width <= MaxSide && height <= MaxSide then Keep
    else if width >= height then Scale(MaxSide, MaxSide * height / width)
    else Scale(MaxSide * width / height, MaxSide)
  }

  /** q is the truncated quotient a / b: q * b <= a < (q + 1) * b. */
  ghost predicate IsFloorQuotient(q: nat, a: nat, b: nat) {
    q * b <= a < (q + 1) * b
  }

  lemma FloorQuotient(a: nat, b: nat)
    requires b > 0
    ensures IsFloorQuotient(a / b, a, b)
  {
  }

  /**
   * A landscape or square image over the bound becomes 720 wide, and its new
   * height is the truncated 720 * height / width, so it is at most 720.
   */
  lemma LandscapeDimensions(width: nat, height: nat)
    requires width > MaxSide || height > MaxSide
    requires width >= height
    ensures ResizePlan(width, height).Scale?
    ensures ResizePlan(width, height).width == MaxSide
    ensures IsFloorQuotient(ResizePlan(width, height).height, MaxSide * height, width)
    ensures ResizePlan(width, height).height <= MaxSide
  {
    var h := MaxSide * height / width;
    FloorQuotient(MaxSide * height, width);
    assert h * width <= MaxSide * height <= MaxSide * width;
  }

  /**
   * A portrait image over the bound becomes 720 high, and its new width is
   * the truncated 720 * width / height, so it is strictly below 720.
   */
  lemma PortraitDimensions(width: nat, height: nat)
    requires width > MaxSide || height > MaxSide
    requires width < height
    ensures ResizePlan(width, height).Scale?
    ensures ResizePlan(width, height).height == MaxSide
    ensures IsFloorQuotient(ResizePlan(width, height).width, MaxSide * width, height)
    ensures ResizePlan(width, height).width < MaxSide
  {
    var w := MaxSide * width / height;
    FloorQuotient(MaxSide * width, height);
    assert w * height <= MaxSide * width < MaxSide * height;
  }

  /** Every resized image fits the bound, and its longer side is exactly 720. */
  lemma ScaledLongSide(width: nat, height: nat)
    requires ResizePlan(width, height).Scale?
    ensures var p := ResizePlan(width, height);
      p.width <= MaxSide && p.height <= MaxSide && (p.width == MaxSide || p.height == MaxSide)
  {
    if width >= height {
      LandscapeDimensions(width, height);
    } else {
      PortraitDimensions(width, height);
    }
  }

  /** Resizing an output of the resize step again leaves it as it is. */
  lemma ResizePlanIdempotent(width: nat, height: nat)
    ensures var p := ResizePlan(width, height);
      p.Scale? ==> ResizePlan(p.width, p.height) == Keep
  {
    if ResizePlan(width, height).Scale? {
      ScaledLongSide(width, height);
    }
  }

  /** A 1920x1080 image is resized to 720x405. */
  lemma FullHdExample()
    ensures ResizePlan(1920, 1080) == Scale(720, 405)
  {
  }

  /** The bitmap that the resize step hands to the detector. */
  function Processed(natives: Natives, b: Bitmap): (r: Bitmap)
    ensures r.width <= MaxSide && r.height <= MaxSide
    ensures ResizePlan(b.width, b.height) == Keep ==> r == b
    ensures ResizePlan(b.width, b.height) != Keep ==> r.width == MaxSide || r.height == MaxSide
  {
    match ResizePlan(b.width, b.height)
    case Keep => b
    case Scale(w, h) =>
      ScaledLongSide(b.width, b.height);
      Bitmap(w, h, natives.resample(b, w, h))
  }

  /** Pre-processing an already pre-processed bitmap changes nothing. */
  lemma ProcessedIdempotent(natives: Natives, b: Bitmap)
    ensures Processed(natives, Processed(natives, b)) == Processed(natives, b)
  {
  }

  /**
   * resizeImageForFaceDetection: returns the very same Mat when both sides
   * are within 720, and otherwise a newly allocated Mat holding the scaled
   * image; the original is left untouched.
   */
  method ResizeImageForFaceDetection(natives: Natives, originalImage: Mat) returns (processImage: Mat)
    ensures processImage.bitmap == Processed(natives, originalImage.bitmap)
    ensures processImage == originalImage <==> ResizePlan(originalImage.bitmap.width, originalImage.bitmap.height) == Keep
    ensures processImage != originalImage ==> fresh(processImage) && processImage.releases == 0
    ensures forall m: Mat :: Native(m) && fresh(m) ==> m == processImage
  {
    var width, height := originalImage.bitmap.width, originalImage.bitmap.height;
    if width <= MaxSide && height <= MaxSide {
      processImage := originalImage;
    } else {
      var newWidth, newHeight;
      if width >= height {
        newWidth := MaxSide;
        newHeight := newWidth * height / width;
      } else {
        newHeight := MaxSide;
        newWidth := newHeight * width / height;
      }
      var resizedImage := new Mat(NoPixels);
      Resize(natives, originalImage, resizedImage, newWidth, newHeight);
      processImage := resizedImage;
    }
  }
}
