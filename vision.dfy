/**
 * The native image library, as far as this model needs it.
 *
 * Decoding, resampling, Base64 decoding and the cascade detector are foreign
 * calls. They are parameters of the model (the fields of Natives) whose only
 * visible results are image sizes, byte sequences and rectangle lists.
 */
module Vision {
  import opened Wrappers

  /** The content of a native image buffer: its size and opaque pixels. */
  datatype Bitmap = Bitmap(width: nat, height: nat, pixels: seq<int>)

  /** The header of a Mat that holds nothing (`new Mat()`, or a released Mat). */
  const NoPixels := Bitmap(0, 0, [])

  /** Mat.empty(): the buffer holds no element (its total is zero). */
  predicate IsEmpty(b: Bitmap): (r: bool)
    ensures r <==> b.width * b.height == 0
  {
    b.width == 0 || b.height == 0
  }

  /** One detection: an axis-aligned rectangle. */
  datatype Rect = Rect(x: int, y: int, width: int, height: int)

  /**
   * The arguments handed to detectMultiScale besides the image. The scale
   * factor is the ratio scaleNum / scaleDen; a zero maximum size means "no limit".
   */
  datatype DetectParams = DetectParams(
    scaleNum: nat, scaleDen: nat,
    minNeighbors: nat, flags: int,
    minWidth: nat, minHeight: nat,
    maxWidth: nat, maxHeight: nat)

  /**
   * The foreign calls: Base64 decoding (which fails with a message on
   * malformed input), imdecode, the pixels that an area resize to a given
   * size produces, and the loaded classifier's detectMultiScale.
   */
  datatype Natives = Natives(
    base64Decode: string -> Result<seq<bv8>, string>,
    imdecode: seq<bv8> -> Bitmap,
    resample: (Bitmap, nat, nat) -> seq<int>,
    detectMultiScale: (Bitmap, DetectParams) -> seq<Rect>)

  /**
   * Holds of every Mat. Quantifiers over Mats use it as their trigger, so
   * that statements about which Mats a call allocated, made in different
   * heaps, can be combined by naming a Mat once.
   */
  ghost predicate Native(m: Mat) {
    true
  }

  /**
   * A native image buffer whose memory is managed by hand. `releases`
   * counts the calls to Release, so that a caller can state that each
   * buffer it allocated was released exactly once.
   */
  class Mat {
    var bitmap: Bitmap
    var releases: nat

    constructor (b: Bitmap)
      ensures bitmap == b && releases == 0
      ensures forall m: Mat :: Native(m) && fresh(m) ==> m == this
    {
      bitmap := b;
      releases := 0;
    }

    /** Mat.release(): frees the pixels and leaves an empty header. */
    method Release()
      modifies this
      ensures bitmap == NoPixels && IsEmpty(bitmap)
      ensures releases == old(releases) + 1
      ensures forall m: Mat :: Native(m) ==> !fresh(m)
    {
      bitmap := NoPixels;
      releases := releases + 1;
    }
  }

  /**
   * Imgproc.resize(src, dst, new Size(width, height), 0, 0, INTER_AREA):
   * dst receives a bitmap of exactly the requested size.
   */
  method Resize(natives: Natives, src: Mat, dst: Mat, width: nat, height: nat)
    requires src != dst
    modifies dst
    ensures dst.bitmap == Bitmap(width, height, natives.resample(old(src.bitmap), width, height))
    ensures dst.releases == old(dst.releases)
    ensures forall m: Mat :: Native(m) ==> !fresh(m)
  {
    dst.bitmap := Bitmap(width, height, natives.resample(src.bitmap, width, height));
  }
}
