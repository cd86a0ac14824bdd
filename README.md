# Face-detection attendance gate — Dafny model

This project models the request pipeline of a small Spring service that
decides whether an image shows a human face before a clock-in is accepted.
Detection itself is a call into OpenCV's cascade classifier; what the
repository decides for itself is modelled here:

- the **upload gate** of `hasHumanFace(MultipartFile)`: content type exactly
  `image/jpeg` or `image/png`, declared size at most 5 MiB, both checked before
  the bytes are read or decoded;
- the **data-URL prefix removal** of `hasHumanFace(String)`, with the exact
  semantics of Java's `split(",")[1]` (trailing empty fields dropped, index
  error when fewer than two fields remain);
- the **decoded-image gate**: non-empty and at least 320x240;
- the **resize rule** of `resizeImageForFaceDetection`: the same `Mat` when
  both sides are within 720, otherwise a new `Mat` whose longer side is 720
  and whose shorter side is truncated;
- the **result reduction**: "face present" exactly when the detector returned
  at least one rectangle;
- the **buffer lifetime**: the resized `Mat` is released only when it is a
  different object from the original, and the original is released after
  detection;
- the **controller mapping** of both `clockIn` endpoints from the service's
  outcome (true, false or an exception) to a status and body.

Files and modules:

- `wrappers.dfy` — `Wrappers`: `Option` and `Result`.
- `vision.dfy` — `Vision`: the native library. `Natives` bundles the foreign
  calls (Base64 decoding, `imdecode`, the pixels of an area resize,
  `detectMultiScale`) as parameters; `Mat` is a class with a bitmap and a
  count of `release()` calls; the ghost predicate `Native` holds of every `Mat` and names it in the statements about which buffers a call allocates.
- `resize.dfy` — `Resize`: the dimension rule `ResizePlan`, the bitmap the
  detector sees (`Processed`) and the imperative `ResizeImageForFaceDetection`.
- `data_url.dfy` — `DataUrl`: comma fields, Java's trailing-empty removal, `StripPrefix`.
- `face_detection_service.dfy` — `FaceDetectionService`: the verdict of each
  overload as a function (`UploadVerdict`, `Base64Verdict`) and the two
  overloads as methods that allocate and release `Mat` buffers, proved against
  those functions.
- `attendance_controller.dfy` — `AttendanceController`: the response mapping
  and the two handlers.

Behaviour of the code worth noting:

- The prefix removal keeps the **second comma-separated field**, not
  everything after the first comma: `"a,b,c"` yields `"b"`, and a string whose
  only comma is the last character raises an index error.
- The resized short side is **truncated**, not rounded.
- The GET endpoint's `hasHumanFace(imageName)` reaches the **Base64 String
  overload**, because the named-resource overload is commented out; the
  path variable is stripped and Base64-decoded like any other string.
- Validation failures on the POST endpoint become **500** with the exception
  text appended, not 400.

## Model

| member | source | states |
|---|---|---|
| Vision.IsEmpty | src/main/java/com/face_detectin/face_detection/FaceDetectionService.java:138 | Mat.empty(): the buffer's element total, width times height, is zero |
| Vision.Mat.constructor | src/main/java/com/face_detectin/face_detection/FaceDetectionService.java:260 | a new buffer holds the given bitmap, has not been released, and is the only Mat allocated |
| Vision.Mat.Release | src/main/java/com/face_detectin/face_detection/FaceDetectionService.java:170-176 | release() empties the buffer, counts one more release and allocates no Mat |
| Vision.Resize | src/main/java/com/face_detectin/face_detection/FaceDetectionService.java:263 | the destination receives a bitmap of exactly the requested size, the source is left alone, no Mat is allocated |
| Resize.ResizePlan | src/main/java/com/face_detectin/face_detection/FaceDetectionService.java:241-243 | the image is kept exactly when both sides are at most 720 |
| Resize.LandscapeDimensions | src/main/java/com/face_detectin/face_detection/FaceDetectionService.java:249-252 | width >= height over the bound: new width 720, new height the truncated 720*h/w, at most 720 |
| Resize.PortraitDimensions | src/main/java/com/face_detectin/face_detection/FaceDetectionService.java:253-256 | width < height over the bound: new height 720, new width the truncated 720*w/h, below 720 |
| Resize.ScaledLongSide | src/main/java/com/face_detectin/face_detection/FaceDetectionService.java:245-257 | every resized size fits 720x720 and its longer side is exactly 720 |
| Resize.ResizePlanIdempotent | src/main/java/com/face_detectin/face_detection/FaceDetectionService.java:239-258 | a resized size is kept when resized again |
| Resize.FullHdExample | src/main/java/com/face_detectin/face_detection/FaceDetectionService.java:246-257 | 1920x1080 becomes 720x405 |
| Resize.Processed | src/main/java/com/face_detectin/face_detection/FaceDetectionService.java:239-269 | the detector's bitmap fits 720x720, equals the input when kept, and has a 720 side otherwise |
| Resize.ProcessedIdempotent | src/main/java/com/face_detectin/face_detection/FaceDetectionService.java:239-269 | pre-processing a pre-processed bitmap changes nothing |
| Resize.ResizeImageForFaceDetection | src/main/java/com/face_detectin/face_detection/FaceDetectionService.java:239-269 | returns the same Mat exactly when kept, otherwise a fresh unreleased Mat, the only one allocated; its bitmap is Processed of the input |
| DataUrl.Fields | src/main/java/com/face_detectin/face_detection/FaceDetectionService.java:185 | at least one field, no field holds a comma, a single field exactly when there is no comma |
| DataUrl.JoinFields | src/main/java/com/face_detectin/face_detection/FaceDetectionService.java:185 | joining the fields with commas gives back the string |
| DataUrl.FieldsJoin | src/main/java/com/face_detectin/face_detection/FaceDetectionService.java:185 | splitting joined comma-free fields gives back the fields |
| DataUrl.DropTrailingEmpty | src/main/java/com/face_detectin/face_detection/FaceDetectionService.java:185 | the shortest prefix after which every field is empty |
| DataUrl.Split | src/main/java/com/face_detectin/face_detection/FaceDetectionService.java:185 | String.split(","): a comma-free string gives itself; otherwise the comma-free fields up to the last non-empty one, with only empty fields dropped |
| DataUrl.StripPrefix | src/main/java/com/face_detectin/face_detection/FaceDetectionService.java:184-186 | no comma: unchanged; a payload never holds a comma; failure only with a comma and fewer than two fields |
| DataUrl.StripPrefixOfFields | src/main/java/com/face_detectin/face_detection/FaceDetectionService.java:184-186 | with a comma: succeeds iff some later field is non-empty, and yields the second field |
| DataUrl.DataUrlPayload | src/main/java/com/face_detectin/face_detection/FaceDetectionService.java:184-186 | "prefix,P" yields P for a non-empty comma-free P |
| DataUrl.TrailingCommaFails | src/main/java/com/face_detectin/face_detection/FaceDetectionService.java:184-186 | a string whose only comma is trailing raises the index error |
| DataUrl.MiddleFieldOnly | src/main/java/com/face_detectin/face_detection/FaceDetectionService.java:184-186 | "a,b,c" yields "b", not "b,c" |
| FaceDetectionService.UploadGate | src/main/java/com/face_detectin/face_detection/FaceDetectionService.java:121-129 | passes exactly for type image/jpeg or image/png and size at most 5242880; rejections are IllegalArgument |
| FaceDetectionService.UploadStage | src/main/java/com/face_detectin/face_detection/FaceDetectionService.java:121-135 | a decoded image exactly when the gate passes and getBytes succeeds, and then it is imdecode of the bytes; a gate rejection or the IOException otherwise |
| FaceDetectionService.Base64Stage | src/main/java/com/face_detectin/face_detection/FaceDetectionService.java:184-192 | a decoded image exactly when the prefix removal and Base64 decoding succeed, and then it is imdecode of the decoded bytes; the split's index error when prefix removal fails, the decoder's IllegalArgument with its message when Base64 decoding fails |
| FaceDetectionService.UploadVerdict | src/main/java/com/face_detectin/face_detection/FaceDetectionService.java:119-179 | an answer exactly when the gate passes, the bytes are read and the decoded image is usable; the answer is true iff the detector found a rectangle in the pre-processed image |
| FaceDetectionService.Base64Verdict | src/main/java/com/face_detectin/face_detection/FaceDetectionService.java:182-233 | an answer exactly when the string decodes to a usable image; the answer is true iff the detector found a rectangle in the pre-processed image |
| FaceDetectionService.Examine | src/main/java/com/face_detectin/face_detection/FaceDetectionService.java:137-178 | an answer exactly for a non-empty image of at least 320x240; the empty and too-small messages otherwise |
| FaceDetectionService.DetectInDecoded | src/main/java/com/face_detectin/face_detection/FaceDetectionService.java:137-178 | answers as Examine; the Mats it allocates are exactly those in `resized`; on success the original and any resized copy are released once each and the original is emptied, on a rejection nothing is released and the original is unchanged |
| FaceDetectionService.HasHumanFaceUpload | src/main/java/com/face_detectin/face_detection/FaceDetectionService.java:119-179 | returns UploadVerdict; every Mat allocated during the call is in `buffers`, which has BufferCount entries, all fresh and distinct, each released once on success and never on an exception |
| FaceDetectionService.HasHumanFaceBase64 | src/main/java/com/face_detectin/face_detection/FaceDetectionService.java:182-233 | returns Base64Verdict; every Mat allocated during the call is in `buffers`, with the same accounting as the upload overload |
| FaceDetectionService.ContentTypeRejected | src/main/java/com/face_detectin/face_detection/FaceDetectionService.java:121-124 | a null or other content type is rejected with the type message, whatever the size |
| FaceDetectionService.SizeBoundary | src/main/java/com/face_detectin/face_detection/FaceDetectionService.java:127-129 | 5242880 bytes pass, 5242881 are rejected with the size message |
| FaceDetectionService.GateBeforeDecode | src/main/java/com/face_detectin/face_detection/FaceDetectionService.java:120-135 | a gate rejection does not depend on the natives or the content, and allocates no buffer |
| FaceDetectionService.MinimumSizeBoundary | src/main/java/com/face_detectin/face_detection/FaceDetectionService.java:143-145 | 320x240 passes; 319x240, 320x239 and 200x150 are too small |
| FaceDetectionService.ResultIgnoresGeometry | src/main/java/com/face_detectin/face_detection/FaceDetectionService.java:160-178 | the verdict depends on the detector only through whether it found nothing; true iff usable and non-empty |
| FaceDetectionService.DataUrlMatchesBarePayload | src/main/java/com/face_detectin/face_detection/FaceDetectionService.java:184-192 | "prefix,P" and "P" give the same verdict |
| FaceDetectionService.TrailingCommaThrows | src/main/java/com/face_detectin/face_detection/FaceDetectionService.java:184-186 | a trailing-only comma makes the Base64 overload throw an index error |
| FaceDetectionService.Base64HasNoGate | src/main/java/com/face_detectin/face_detection/FaceDetectionService.java:182-192 | the Base64 overload applies no type or size check before decoding |
| AttendanceController.GetResponse | src/main/java/com/face_detectin/face_detection/AttendanceController.java:23-33 | exceptions propagate unchanged; a face gives 200 "Clock-in successful", none gives 400 "No face detected in the image" |
| AttendanceController.PostResponse | src/main/java/com/face_detectin/face_detection/AttendanceController.java:35-63 | status is 200, 400 or 500; 500 iff an exception, with the exception message after the fixed prefix; 200 "Clock-in successful" iff a face was found; 400 "No face detected in the image" when none was |
| AttendanceController.EndpointsAgreeOnAnswers | src/main/java/com/face_detectin/face_detection/AttendanceController.java:26-57 | when the service answers, GET and POST respond alike: 200 "Clock-in successful" or 400 "No face detected in the image" |
| AttendanceController.PostIgnoresFormFields | src/main/java/com/face_detectin/face_detection/AttendanceController.java:36-57 | the response does not depend on username, departmentName or employeeId |
| AttendanceController.ValidationFailureIs500 | src/main/java/com/face_detectin/face_detection/AttendanceController.java:58-61 | a type or size rejection answers 500 with the prefix and the exception message |
| AttendanceController.UnsupportedTypeIs500 | src/main/java/com/face_detectin/face_detection/AttendanceController.java:58-61 | an unsupported type answers 500 with the type message |
| AttendanceController.NoFaceMeansUsableAndNothingFound | src/main/java/com/face_detectin/face_detection/AttendanceController.java:44-49 | a POST 400 means the image decoded, passed the size checks and the detector found nothing |
| AttendanceController.ClockInGet | src/main/java/com/face_detectin/face_detection/AttendanceController.java:23-33 | answers GetResponse of the Base64 overload's verdict for the path variable |
| AttendanceController.ClockInPost | src/main/java/com/face_detectin/face_detection/AttendanceController.java:35-63 | answers PostResponse of the upload overload's verdict |

## Left out

- Resize.ResizePlan: uses exact integer truncation of 720*h/w and 720*w/h; the source divides in `double`, which can come out one pixel lower when the exact quotient is an integer.
- Vision.Resize: OpenCV's own failure when a target side is 0 (possible for extreme aspect ratios) is not modelled; the model always produces a bitmap of the requested size, and no positive lower bound is claimed for the short side.
- Native exceptions of `imdecode` and `detectMultiScale` (OpenCV `CvException`) are not modelled: these calls are parameters that always return.
- The detector, the decoder, the area resampling and Base64 decoding are foreign calls; only their sizes, bytes and rectangle lists are visible, and the tuning constants (1.1, 5, 0, 30x30, no maximum) are passed through unchanged.
- FaceDetectionService.HasHumanFaceUpload: the `MatOfByte` and `MatOfRect` wrappers the source allocates are never released by it and are not tracked as buffers; only the decoded and resized images are `Mat`s here.
- FaceDetectionService.HasHumanFaceBase64: the same holds for its `MatOfByte` and `MatOfRect` wrappers, which are neither released nor tracked.
- Classifier loading at start-up (resource lookup, temporary file, native load) is I/O and is not part of this model.
- The commented-out named-resource overload is dead code and is not modelled.
- `AttendanceRequest` is a data holder without logic and is not part of this model.
- Spring wiring, multipart parsing and logging are framework plumbing; the upload is modelled by its declared content type, declared size and the result of reading its bytes.
- The message of the index error follows the JDK wording ("Index 1 out of bounds for length n"); it only ever reaches the GET endpoint, which does not catch it.
