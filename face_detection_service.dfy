/**
 * FaceDetectionService: the two entry points that decide whether an image
 * shows a human face. An upload is checked for type and size before it is
 * decoded; a Base64 string has its data-URL prefix removed. On both paths
 * the decoded image must be non-empty and at least 320x240, is resized to
 * at most 720 on the longer side, and "face present" means that the
 * detector returned at least one rectangle.
 */
module FaceDetectionService {
  import opened Wrappers
  import opened Vision
  import opened Resize
  import DataUrl

  /** The upload size limit, 5 MiB. */
  const MaxUploadBytes: nat := 5 * 1024 * 1024
  const MinWidth: nat := 320
  const MinHeight: nat := 240

  /** Scale factor 1.1, 5 neighbours, no flags, minimum face 30x30, no maximum. */
  const FaceParams := DetectParams(11, 10, 5, 0, 30, 30, 0, 0)

  const UnsupportedTypeMessage := "Only JPEG and PNG images are supported"
  const TooLargeMessage := "File size exceeds the maximum limit of 5MB"
  const UploadUndecodableMessage := "Failed to load image from uploaded file"
  const Base64UndecodableMessage := "Failed to load image from base64 string"
  const TooSmallMessage := "Image is too small. Minimum size is 320x240 pixels"

  /** The Java exceptions the service lets escape. */
  datatype ExceptionKind = IllegalArgument | ArrayIndexOutOfBounds | IO
  datatype Exception = Exception(kind: ExceptionKind, message: string)

  /** What hasHumanFace does: return a boolean or throw. */
  datatype Verdict = Detected(face: bool) | Thrown(error: Exception)

  /**
   * A multipart upload: the declared content type (null when absent), the
   * declared size in bytes, and what getBytes() returns or the message of
   * the IOException it throws.
   */
  datatype Upload = Upload(contentType: Option<string>, size: nat, bytes: Result<seq<bv8>, string>)

  /** How far a call gets before it holds a decoded image. */
  datatype Stage = Rejected(error: Exception) | Decoded(image: Bitmap)

  /** An image the service accepts for detection. */
  predicate Usable(image: Bitmap) {
    !IsEmpty(image) && image.width >= MinWidth && image.height >= MinHeight
  }

  /** The type and size checks on an upload, made before anything is read or decoded. */
  function UploadGate(photo: Upload): (r: Option<Exception>)
    ensures r == None <==>
      (photo.contentType == Some("image/jpeg") || photo.contentType == Some("image/png"))
      && photo.size <= MaxUploadBytes
    ensures r.Some? ==> r.value.kind == IllegalArgument
  {
    if photo.contentType == None
       || (photo.contentType.value != "image/jpeg" && photo.contentType.value != "image/png") then
      Some(Exception(IllegalArgument, UnsupportedTypeMessage))
    else if photo.size > MaxUploadBytes then
      Some(Exception(IllegalArgument, TooLargeMessage))
    else None
  }

  /** The upload path up to imdecode. */
  function UploadStage(natives: Natives, photo: Upload): (r: Stage)
    ensures r.Decoded? <==> UploadGate(photo) == None && photo.bytes.Success?
    ensures r.Decoded? ==> r.image == natives.imdecode(photo.bytes.value)
    ensures UploadGate(photo).Some? ==> r == Rejected(UploadGate(photo).value)
    ensures UploadGate(photo) == None && photo.bytes.Failure? ==> r == Rejected(Exception(IO, photo.bytes.error))
  {
    match UploadGate(photo)
    case Some(e) => Rejected(e)
    case None =>
      match photo.bytes
      case Failure(message) => Rejected(Exception(IO, message))
      case Success(bytes) => Decoded(natives.imdecode(bytes))
  }

  /** The message of the index error that `split(",")[1]` raises on a result of n elements. */
  function IndexErrorMessage(n: nat): (message: string)
    requires n < 2
  {
    "Index 1 out of bounds for length " + (if n == 0 then "0" else "1")
  }

  /** The Base64 path up to imdecode. */
  function Base64Stage(natives: Natives, base64Image: string): (r: Stage)
    ensures r.Decoded? <==>
      DataUrl.StripPrefix(base64Image).Success?
      && natives.base64Decode(DataUrl.StripPrefix(base64Image).value).Success?
    ensures r.Decoded? ==>
      r.image == natives.imdecode(natives.base64Decode(DataUrl.StripPrefix(base64Image).value).value)
    ensures DataUrl.StripPrefix(base64Image).Failure? ==> r.error.kind == ArrayIndexOutOfBounds
    ensures (DataUrl.StripPrefix(base64Image).Success?
             && natives.base64Decode(DataUrl.StripPrefix(base64Image).value).Failure?) ==>
      r == Rejected(Exception(IllegalArgument, natives.base64Decode(DataUrl.StripPrefix(base64Image).value).error))
  {
    match DataUrl.StripPrefix(base64Image)
    case Failure(n) => Rejected(Exception(ArrayIndexOutOfBounds, IndexErrorMessage(n)))
    case Success(payload) =>
      match natives.base64Decode(payload)
      case Failure(message) => Rejected(Exception(IllegalArgument, message))
      case Success(bytes) => Decoded(natives.imdecode(bytes))
  }

  /**
   * The checks on a decoded image and the detection on its pre-processed
   * copy, common to both paths; emptyMessage is the path's own message for
   * an image that did not decode.
   */
  function Examine(natives: Natives, image: Bitmap, emptyMessage: string): (v: Verdict)
    ensures v.Detected? <==> Usable(image)
    ensures v.Thrown? ==> v.error.kind == IllegalArgument
    ensures IsEmpty(image) ==> v == Thrown(Exception(IllegalArgument, emptyMessage))
    ensures !IsEmpty(image) && !Usable(image) ==> v == Thrown(Exception(IllegalArgument, TooSmallMessage))
  {
    if IsEmpty(image) then Thrown(Exception(IllegalArgument, emptyMessage))
    else if image.width < MinWidth || image.height < MinHeight then
      Thrown(Exception(IllegalArgument, TooSmallMessage))
    else
      Detected(|natives.detectMultiScale(Processed(natives, image), FaceParams)| > 0)
  }

  /** The outcome of a call once its stage is known. */
  function Finish(natives: Natives, stage: Stage, emptyMessage: string): (v: Verdict) {
    match stage
    case Rejected(e) => Thrown(e)
    case Decoded(image) => Examine(natives, image, emptyMessage)
  }

  /** hasHumanFace(MultipartFile) as a function of the natives and the upload. */
  function UploadVerdict(natives: Natives, photo: Upload): (v: Verdict)
    ensures v.Detected? <==>
      UploadGate(photo) == None && photo.bytes.Success? && Usable(natives.imdecode(photo.bytes.value))
    ensures v.Detected? ==>
      (v.face <==> natives.detectMultiScale(Processed(natives, natives.imdecode(photo.bytes.value)), FaceParams) != [])
  {
    Finish(natives, UploadStage(natives, photo), UploadUndecodableMessage)
  }

  /** hasHumanFace(String) as a function of the natives and the string. */
  function Base64Verdict(natives: Natives, base64Image: string): (v: Verdict)
    ensures v.Detected? <==> Base64Stage(natives, base64Image).Decoded? && Usable(Base64Stage(natives, base64Image).image)
    ensures v.Detected? ==>
      var image := Base64Stage(natives, base64Image).image;
      (v.face <==> natives.detectMultiScale(Processed(natives, image), FaceParams) != [])
  {
    Finish(natives, Base64Stage(natives, base64Image), Base64UndecodableMessage)
  }

  /**
   * How many image buffers a call allocates: none when it stops before
   * imdecode, the decoded one, and a second one when the decoded image
   * passes the checks and is over the size bound.
   */
  function BufferCount(stage: Stage): (count: nat) {
    match stage
    case Rejected(_) => 0
    case Decoded(image) =>
      if Usable(image) && ResizePlan(image.width, image.height) != Keep then 2 else 1
  }

  /**
   * The part of both overloads after imdecode: validate, resize, detect and
   * release. On success the resized copy (if any) and the original are each
   * released once; on a validation failure nothing is released.
   */
  method DetectInDecoded(natives: Natives, originalImage: Mat, emptyMessage: string)
    returns (v: Verdict, ghost resized: seq<Mat>)
    requires originalImage.releases == 0
    modifies originalImage
    ensures v == Examine(natives, old(originalImage.bitmap), emptyMessage)
    ensures |resized| == BufferCount(Decoded(old(originalImage.bitmap))) - 1
    ensures forall m :: m in resized ==> fresh(m) && m.releases == 1
    ensures originalImage.releases == if v.Detected? then 1 else 0
    ensures originalImage.bitmap == if v.Detected? then NoPixels else old(originalImage.bitmap)
    ensures forall m: Mat :: Native(m) && fresh(m) ==> m in resized
  {
    if IsEmpty(originalImage.bitmap) {
      return Thrown(Exception(IllegalArgument, emptyMessage)), [];
    }
    if originalImage.bitmap.width < MinWidth || originalImage.bitmap.height < MinHeight {
      return Thrown(Exception(IllegalArgument, TooSmallMessage)), [];
    }
    var processImage := ResizeImageForFaceDetection(natives, originalImage);
    var faceDetections := natives.detectMultiScale(processImage.bitmap, FaceParams);
    resized := [];
    if processImage != originalImage {
      processImage.Release();
      resized := [processImage];
    }
    originalImage.Release();
    v := Detected(|faceDetections| > 0);
  }

  /**
   * hasHumanFace(MultipartFile). The returned ghost sequence lists the image
   * buffers the call allocated, original first.
   */
  method HasHumanFaceUpload(natives: Natives, photo: Upload) returns (v: Verdict, ghost buffers: seq<Mat>)
    ensures v == UploadVerdict(natives, photo)
    ensures |buffers| == BufferCount(UploadStage(natives, photo))
    ensures |buffers| == 2 ==> buffers[0] != buffers[1]
    ensures forall m :: m in buffers ==> fresh(m) && m.releases == if v.Detected? then 1 else 0
    ensures forall m: Mat :: Native(m) && fresh(m) ==> m in buffers
  {
    var contentType := photo.contentType;
    if contentType == None || (contentType.value != "image/jpeg" && contentType.value != "image/png") {
      return Thrown(Exception(IllegalArgument, UnsupportedTypeMessage)), [];
    }
    if photo.size > MaxUploadBytes {
      return Thrown(Exception(IllegalArgument, TooLargeMessage)), [];
    }
    if photo.bytes.Failure? {
      return Thrown(Exception(IO, photo.bytes.error)), [];
    }
    var imageBytes := photo.bytes.value;
    var originalImage := new Mat(natives.imdecode(imageBytes));
    ghost var resized;
    v, resized := DetectInDecoded(natives, originalImage, UploadUndecodableMessage);
    buffers := [originalImage] + resized;
  }

  /**
   * hasHumanFace(String). The returned ghost sequence lists the image
   * buffers the call allocated, original first.
   */
  method HasHumanFaceBase64(natives: Natives, base64Image: string) returns (v: Verdict, ghost buffers: seq<Mat>)
    ensures v == Base64Verdict(natives, base64Image)
    ensures |buffers| == BufferCount(Base64Stage(natives, base64Image))
    ensures |buffers| == 2 ==> buffers[0] != buffers[1]
    ensures forall m :: m in buffers ==> fresh(m) && m.releases == if v.Detected? then 1 else 0
    ensures forall m: Mat :: Native(m) && fresh(m) ==> m in buffers
  {
    var payload := base64Image;
    if DataUrl.Comma in payload {
      var parts := DataUrl.Split(payload);
      if |parts| < 2 {
        return Thrown(Exception(ArrayIndexOutOfBounds, IndexErrorMessage(|parts|))), [];
      }
      payload := parts[1];
    }
    var decoded := natives.base64Decode(payload);
    if decoded.Failure? {
      return Thrown(Exception(IllegalArgument, decoded.error)), [];
    }
    var imageBytes := decoded.value;
    var originalImage := new Mat(natives.imdecode(imageBytes));
    ghost var resized;
    v, resized := DetectInDecoded(natives, originalImage, Base64UndecodableMessage);
    buffers := [originalImage] + resized;
  }

  /** The content-type check comes first: a wrong or missing type is reported as such whatever the size. */
  lemma ContentTypeRejected(natives: Natives, photo: Upload)
    requires photo.contentType != Some("image/jpeg") && photo.contentType != Some("image/png")
    ensures UploadVerdict(natives, photo) == Thrown(Exception(IllegalArgument, UnsupportedTypeMessage))
  {
  }

  /** Exactly 5 MiB passes the size check; one byte more is rejected. */
  lemma SizeBoundary(contentType: string, bytes: Result<seq<bv8>, string>)
    requires contentType == "image/jpeg" || contentType == "image/png"
    ensures UploadGate(Upload(Some(contentType), 5242880, bytes)) == None
    ensures UploadGate(Upload(Some(contentType), 5242881, bytes)) == Some(Exception(IllegalArgument, TooLargeMessage))
  {
  }

  /**
   * An upload that fails the type or size check is rejected before its bytes
   * are read or decoded: neither the natives nor the content matter.
   */
  lemma GateBeforeDecode(natives: Natives, other: Natives, photo: Upload, content: Result<seq<bv8>, string>)
    requires UploadGate(photo).Some?
    ensures UploadVerdict(natives, photo) == UploadVerdict(other, photo.(bytes := content))
    ensures UploadVerdict(natives, photo) == Thrown(UploadGate(photo).value)
    ensures BufferCount(UploadStage(natives, photo)) == 0
  {
  }

  /** 320x240 is the smallest accepted size; 319 wide, 239 high or 200x150 are too small. */
  lemma MinimumSizeBoundary(natives: Natives, pixels: seq<int>, emptyMessage: string)
    ensures Examine(natives, Bitmap(320, 240, pixels), emptyMessage).Detected?
    ensures Examine(natives, Bitmap(319, 240, pixels), emptyMessage) == Thrown(Exception(IllegalArgument, TooSmallMessage))
    ensures Examine(natives, Bitmap(320, 239, pixels), emptyMessage) == Thrown(Exception(IllegalArgument, TooSmallMessage))
    ensures Examine(natives, Bitmap(200, 150, pixels), emptyMessage) == Thrown(Exception(IllegalArgument, TooSmallMessage))
  {
  }

  /**
   * The answer depends on the detector only through whether it found
   * anything: a detector that finds other rectangles, or a different
   * number of them, gives the same verdict as long as it agrees on "none".
   */
  lemma ResultIgnoresGeometry(natives: Natives, detector: (Bitmap, DetectParams) -> seq<Rect>, image: Bitmap, emptyMessage: string)
    requires var seen := Processed(natives, image);
      (natives.detectMultiScale(seen, FaceParams) == []) == (detector(seen, FaceParams) == [])
    ensures Examine(natives, image, emptyMessage) == Examine(natives.(detectMultiScale := detector), image, emptyMessage)
    ensures Examine(natives, image, emptyMessage) == Detected(true) <==>
      Usable(image) && natives.detectMultiScale(Processed(natives, image), FaceParams) != []
  {
    var other := natives.(detectMultiScale := detector);
    assert Processed(other, image) == Processed(natives, image);
  }

  /**
   * A data URL and its bare payload give the same answer, for a non-empty
   * payload without a comma (Base64 text never has one).
   */
  lemma DataUrlMatchesBarePayload(natives: Natives, prefix: string, payload: string)
    requires DataUrl.Comma !in prefix && DataUrl.Comma !in payload && payload != ""
    ensures Base64Verdict(natives, prefix + [DataUrl.Comma] + payload) == Base64Verdict(natives, payload)
  {
    DataUrl.DataUrlPayload(prefix, payload);
  }

  /** A Base64 string whose only comma is its last character raises the index error. */
  lemma TrailingCommaThrows(natives: Natives, prefix: string)
    requires DataUrl.Comma !in prefix
    ensures Base64Verdict(natives, prefix + [DataUrl.Comma]).Thrown?
    ensures Base64Verdict(natives, prefix + [DataUrl.Comma]).error.kind == ArrayIndexOutOfBounds
  {
    DataUrl.TrailingCommaFails(prefix);
  }

  /** The Base64 path applies no type or size check: only the decoded image is judged. */
  lemma Base64HasNoGate(natives: Natives, base64Image: string, bytes: seq<bv8>)
    requires DataUrl.Comma !in base64Image
    requires natives.base64Decode(base64Image) == Success(bytes)
    ensures Base64Verdict(natives, base64Image) == Examine(natives, natives.imdecode(bytes), Base64UndecodableMessage)
  {
  }
}
