# Face-recognition descriptor window — a Dafny model

The service enrolls a person from three photos and later checks a probe photo
against that enrollment. Each user has one document in the `faces` collection
with three fields: `userId`, `label` and `descriptions`. `descriptions` is a
window of at most 10 face descriptors, oldest first.

- `/post-face` runs `uploadLabeledImages`. It walks the three images in
  order and skips any image without a face. It collects one descriptor per
  detected face, keeps the last 10, and writes a new document that replaces
  the earlier one in full.
- `/check-face` reads the user's document and detects the probe face. It
  asks the face-api matcher for the best match, which it always returns.
  When the match distance is at most 0.4, it first appends the probe to the
  window, trims the window to the last 10 and writes it back.

The model has three modules:

- `Window` (window.dfy): the `slice(-10)` trim (`KeepLast`) and one adaptive
  update (`Push`). It proves that any series of updates keeps exactly the
  last 10 descriptors of the whole history.
- `Enrollment` (enrollment.dfy): the accumulator. `Detection` is what loading
  one image and detecting a face yields: a face with its descriptor, no
  face, or a failure (the image cannot be loaded, or the detector throws).
  `Detected` is the reference definition of the accumulator, and
  `CollectDescriptors` is the source's loop, proved equal to it.
- `FaceApp` (face_app.dfy): the collection as a class `App` with a
  `map<string, FaceRecord>` field. It holds the enrollment routine and the
  two handlers as methods. Each handler is proved equal to a pure outcome
  function (`EnrollOutcome`, `CheckOutcome`), whose contract states the
  reply and the new collection.

The external pieces become parameters:

- The face detector is a function `detect: string -> Detection` from an
  uploaded file's temp path.
- The face-api matcher is a function `Matcher` from the label, the window,
  the 0.6 threshold and the probe to a `MatchResult(name, distance)`.
- Descriptors are `seq<real>`, and the model never looks inside one.
- A request is a map of uploaded files (field name to temp path) plus a map
  of body fields. A body field counts as given when it is present and not
  the empty string, which is JavaScript truthiness for a string.

## Model

| member | source | states |
|---|---|---|
| Window.KeepLast | app.js:59 | `slice(-10)`: the result is the suffix of its input of length min(length, 10) |
| Window.PushShape | app.js:145-150 | one append-and-trim: the length is min(old+1, 10), the probe is last, and the survivors are a suffix of the old window (eviction only from the front, order kept); below 10 nothing is evicted |
| Window.KeepLastAbsorbs | app.js:150 | trimming an already trimmed window after appending equals trimming the whole history once |
| Window.SlidingWindow | app.js:141-155 | any series of updates on a bounded window leaves exactly the last 10 descriptors of window-plus-arrivals; from empty, N updates give min(N, 10) entries |
| Enrollment.Detected | app.js:39-53 | the accumulator never has more entries than there are images |
| Enrollment.DetectedFollowsInput | app.js:39-53 | the accumulator is the input restricted to images with a face: its j-th entry is the descriptor of the j-th face image, positions strictly increase, and every face image contributes |
| Enrollment.DetectedAppend | app.js:48-51 | a miss in one part of a batch does not disturb what the other part contributes (the accumulator distributes over concatenation) |
| Enrollment.NoFacesNoDescriptors | app.js:48-51 | a batch with no face at all yields an empty accumulator |
| Enrollment.FacelessImageSkipped | app.js:40-53 | three images with no face in the second: the first and third descriptors, in that order |
| Enrollment.EnrollThenAdapt | app.js:59 | enrollment followed by any number of adaptive updates keeps the last 10 of the enrolled descriptors followed by the admitted probes |
| Enrollment.CollectDescriptors | app.js:39-53 | the loop with `continue` on a miss: it succeeds exactly when no image fails, and then returns exactly the detected descriptors in input order |
| FaceApp.EnrolledRecord | app.js:56-60 | the written document has the given userId and label, and its window is the last min(k, 10) of the k detected descriptors |
| FaceApp.EnrollOutcome | app.js:70-96 | a 400 for missing files, a 400 for a missing label or userId, a 500 exactly when an image fails, otherwise success (even with no face found); only a success writes, and it replaces the user's document in full and nothing else |
| FaceApp.CheckOutcome | app.js:98-165 | a 400 for a missing file or userId, a 404 for an unknown user or a probe without a face, a 500 when the probe fails, otherwise the match result whether or not the window changed; the key set never changes; a change happens only for a match at distance at most 0.4, and it pushes the probe onto that user's window and touches nothing else |
| FaceApp.EnrollKeepsWellFormed | app.js:56-60 | enrollment keeps every document under its own id with at most 10 descriptors |
| FaceApp.CheckKeepsWellFormed | app.js:141-155 | a check keeps every document under its own id with at most 10 descriptors |
| FaceApp.App.UploadLabeledImages | app.js:36-68 | returns true exactly when no image fails; then the user's document is replaced by the enrolled record, otherwise the collection is untouched |
| FaceApp.App.PostFace | app.js:70-96 | the reply and new collection are those of EnrollOutcome, and the collection stays well formed |
| FaceApp.App.CheckFace | app.js:98-165 | the reply and new collection are those of CheckOutcome, and the collection stays well formed |
| FaceApp.PostFaceSkipsFacelessImage | app.js:73-88 | an upload whose second image has no face succeeds and stores the first and third descriptors |
| FaceApp.ReenrollLeavesNoResidue | app.js:56-60 | enrolling again over any earlier document leaves only the new batch's descriptors |
| FaceApp.CloseProbeAbsorbed | app.js:141-160 | a match at distance 0.35 is returned and the one-entry window grows to two, with the probe last |
| FaceApp.FarProbeKept | app.js:141-160 | a match at distance 0.5 is returned and the collection is unchanged |

## Left out

- HTTP transport: Express routing, `express-fileupload` temp files, JSON bodies and messages. Replies are the tagged `Response`, with its HTTP status noted per constructor.
- Model loading (`LoadModels`), image decoding, face detection and descriptor extraction are foreign calls on float tensors. They are the `detect` parameter. A detector called before the models finish loading throws, which is the `Failed` case.
- The face-api `FaceMatcher` and `findBestMatch` are a library this model does not see. It is the `matcher` parameter. The model does not fix how it scores a window (minimum or mean distance), where its 0.6 boundary lies, or what it reports for an empty window, so whether a probe against an empty window counts as a match, and is absorbed, is not decided here. Only the source's own `distance <= 0.4` comparison is modelled.
- Floating point: distances are `real`, and 0.4 is the exact rational. The float32/float64 round trip of descriptors (`Array.from`, `Float32Array`) is not modelled.
- Firestore faults: the in-memory map cannot fail to read or write. In the source, a failing `set` makes enrollment return the error (a 500). A failing `update` in `/check-face` ends in the handler's catch (a 500), so the match result is not returned. An `update` racing with a deleted document is also not modelled.
- A throw from the matcher, and the matcher's construction over the stored window, are not modelled: the matcher is a total function.
- Concurrency: two handlers for the same user interleaving their read-modify-write, which can lose an update, are not modelled. The model is sequential.
- Console logging.
- Enrollment from batches of other sizes: `/post-face` always passes exactly three files (File1 to File3). `UploadLabeledImages` and the window lemmas still take a batch of any length. Errors carry no kind beyond their reply: a failed image or write is a 500.
