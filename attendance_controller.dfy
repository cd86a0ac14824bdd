/**
 * AttendanceController: the two clock-in endpoints. Each maps the service's
 * outcome to an HTTP status and body; the GET endpoint lets exceptions
 * escape, the POST endpoint turns every exception into a 500.
 */
module AttendanceController {
  import opened Wrappers
  import opened Vision
  import opened FaceDetectionService

  datatype Response = Response(status: nat, body: string)

  const NoFaceBody := "No face detected in the image"
  const SuccessBody := "Clock-in successful"
  const ErrorBodyPrefix := "Error processing attendance: "

  /** GET /clock-in/{imageName}: a found face is 200, none is 400, an exception propagates. */
  function GetResponse(v: Verdict): (r: Result<Response, Exception>)
    ensures r.Failure? <==> v.Thrown?
    ensures r.Failure? ==> r.error == v.error
    ensures r.Success? ==> r.value.status in {200, 400}
    ensures r.Success? ==> (r.value.status == 200 <==> v.face)
    ensures v == Detected(true) ==> r == Success(Response(200, SuccessBody))
    ensures v == Detected(false) ==> r == Success(Response(400, NoFaceBody))
  {
    match v
    case Thrown(e) => Failure(e)
    case Detected(false) => Success(Response(400, NoFaceBody))
    case Detected(true) => Success(Response(200, SuccessBody))
  }

  /**
   * POST /clock-in: a found face is 200, none is 400, and any exception is
   * 500 with its message appended. The three form fields are only logged.
   */
  function PostResponse(v: Verdict, username: string, departmentName: string, employeeId: string): (r: Response)
    ensures r.status in {200, 400, 500}
    ensures r.status == 500 <==> v.Thrown?
    ensures r.status == 200 <==> v == Detected(true)
    ensures v.Thrown? ==> r.body == ErrorBodyPrefix + v.error.message
    ensures v == Detected(true) ==> r.body == SuccessBody
    ensures v == Detected(false) ==> r.body == NoFaceBody
  {
    match v
    case Detected(false) => Response(400, NoFaceBody)
    case Detected(true) => Response(200, SuccessBody)
    case Thrown(e) => Response(500, ErrorBodyPrefix + e.message)
  }

  /**
   * When the service answers, both endpoints give the same response:
   * 200 "Clock-in successful" for a face, 400 "No face detected in the image" otherwise.
   */
  lemma EndpointsAgreeOnAnswers(v: Verdict, username: string, departmentName: string, employeeId: string)
    requires v.Detected?
    ensures GetResponse(v) == Success(PostResponse(v, username, departmentName, employeeId))
    ensures PostResponse(v, username, departmentName, employeeId).body
      == if v.face then "Clock-in successful" else "No face detected in the image"
  {
  }

  /** The POST response never depends on username, departmentName or employeeId. */
  lemma PostIgnoresFormFields(v: Verdict, u1: string, d1: string, e1: string, u2: string, d2: string, e2: string)
    ensures PostResponse(v, u1, d1, e1) == PostResponse(v, u2, d2, e2)
  {
  }

  /**
   * The service's validation failures on an upload surface as 500 with the
   * exception text, not as the 400 "no face" answer.
   */
  lemma ValidationFailureIs500(natives: Natives, photo: Upload, username: string, departmentName: string, employeeId: string)
    requires UploadGate(photo).Some?
    ensures PostResponse(UploadVerdict(natives, photo), username, departmentName, employeeId)
      == Response(500, ErrorBodyPrefix + UploadGate(photo).value.message)
  {
  }

  /** An upload of an unsupported type gets 500 with the type message. */
  lemma UnsupportedTypeIs500(natives: Natives, photo: Upload, username: string, departmentName: string, employeeId: string)
    requires photo.contentType != Some("image/jpeg") && photo.contentType != Some("image/png")
    ensures PostResponse(UploadVerdict(natives, photo), username, departmentName, employeeId)
      == Response(500, ErrorBodyPrefix + UnsupportedTypeMessage)
  {
    ContentTypeRejected(natives, photo);
  }

  /**
   * The 400 answer of either endpoint means the image passed every check
   * and the detector found nothing.
   */
  lemma NoFaceMeansUsableAndNothingFound(natives: Natives, photo: Upload, username: string, departmentName: string, employeeId: string)
    requires PostResponse(UploadVerdict(natives, photo), username, departmentName, employeeId).status == 400
    ensures UploadStage(natives, photo).Decoded?
    ensures var image := UploadStage(natives, photo).image;
      Usable(image) && natives.detectMultiScale(Resize.Processed(natives, image), FaceParams) == []
  {
    var image := UploadStage(natives, photo).image;
    ResultIgnoresGeometry(natives, natives.detectMultiScale, image, UploadUndecodableMessage);
  }

  /**
   * clockIn(String imageName): the path variable goes to the Base64
   * overload of hasHumanFace, the only String overload.
   */
  method ClockInGet(natives: Natives, imageName: string) returns (r: Result<Response, Exception>)
    ensures r == GetResponse(Base64Verdict(natives, imageName))
  {
    var isFaceDetected, _ := HasHumanFaceBase64(natives, imageName);
    if isFaceDetected.Thrown? {
      return Failure(isFaceDetected.error);
    }
    if !isFaceDetected.face {
      return Success(Response(400, NoFaceBody));
    }
    return Success(Response(200, SuccessBody));
  }

  /** clockIn(photo, username, departmentName, employeeId). */
  method ClockInPost(natives: Natives, photo: Upload, username: string, departmentName: string, employeeId: string)
    returns (r: Response)
    ensures r == PostResponse(UploadVerdict(natives, photo), username, departmentName, employeeId)
  {
    var hasFace, _ := HasHumanFaceUpload(natives, photo);
    match hasFace
    case Thrown(e) =>
      r := Response(500, ErrorBodyPrefix + e.message);
    case Detected(face) =>
      if !face {
        return Response(400, NoFaceBody);
      }
      r := Response(200, SuccessBody);
  }
}
