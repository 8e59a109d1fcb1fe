/** The face-recognition service: the `faces` collection keyed by user id,
    the enrollment routine, and the two request handlers `/post-face` and
    `/check-face`. HTTP transport is reduced to a request value (uploaded
    files by field name, body fields by name) and a tagged response. */
module FaceApp {
  import opened Window
  import opened Enrollment

  /** Distance threshold handed to the library matcher for its own
      known/unknown classification. */
  const MatchThreshold: real := 0.6

  /** A probe at most this far from the stored window is absorbed into it. */
  const UpdateThreshold: real := 0.4

  /** A stored document of the `faces` collection; `name` holds the label
      given at enrollment. */
  datatype FaceRecord = FaceRecord(userId: string, name: string, descriptions: seq<Descriptor>)

  /** What the library matcher reports for a probe: the best name and its
      distance. */
  datatype MatchResult = MatchResult(name: string, distance: real)

  /** The library matcher built over one labelled window with a threshold;
      applied to a probe descriptor it gives a match result. */
  type Matcher = (string, seq<Descriptor>, real, Descriptor) -> MatchResult

  /** An upload: temp-file paths by form field name, and the text fields of
      the body. */
  datatype Request = Request(files: map<string, string>, body: map<string, string>)

  datatype Missing = FilesMissing | LabelOrUserIdMissing | FileMissing | UserIdMissing
  datatype Absent = NoFaceData | NoFaceInImage

  /** The reply of a handler, one constructor per response the handlers send. */
  datatype Response =
    | Stored                         // 200, face data stored
    | Checked(result: MatchResult)   // 200, the match result
    | BadRequest(missing: Missing)   // 400
    | NotFound(absent: Absent)       // 404
    | ServerError                    // 500

  /** A body field is truthy: present and not the empty string. */
  predicate Given(body: map<string, string>, field: string)
  {
    field in body && body[field] != ""
  }

  /** `/post-face` needs three files, File1 to File3. */
  predicate EnrollFilesGiven(req: Request)
  {
    "File1" in req.files && "File2" in req.files && "File3" in req.files
  }

  predicate EnrollRequestValid(req: Request)
  {
    EnrollFilesGiven(req) && Given(req.body, "label") && Given(req.body, "userId")
  }

  /** The batch `/post-face` hands to enrollment, in field order. */
  function EnrollImages(req: Request): (images: seq<string>)
    requires EnrollFilesGiven(req)
    ensures |images| == 3
  {
    [req.files["File1"], req.files["File2"], req.files["File3"]]
  }

  predicate CheckRequestValid(req: Request)
  {
    "File1" in req.files && Given(req.body, "userId")
  }

  /** The record that enrollment writes: a fresh document whose window is the
      last MaxWindow detected descriptors of the batch, in input order. */
  function EnrolledRecord(images: seq<string>, name: string, userId: string,
                          detect: string -> Detection): (rec: FaceRecord)
    ensures rec.userId == userId && rec.name == name
    ensures |rec.descriptions| == if |Detected(DetectAll(detect, images))| <= MaxWindow
                                  then |Detected(DetectAll(detect, images))| else MaxWindow
    ensures var found := Detected(DetectAll(detect, images));
            rec.descriptions == found[|found| - |rec.descriptions|..]
  {
    FaceRecord(userId, name, KeepLast(Detected(DetectAll(detect, images)), MaxWindow))
  }

  /** Every document is stored under its own user id and holds a window
      within the bound. */
  predicate WellFormed(faces: map<string, FaceRecord>)
  {
    forall u :: u in faces ==> faces[u].userId == u && |faces[u].descriptions| <= MaxWindow
  }

  /** What a handler replies and the collection it leaves behind. */
  datatype Outcome = Outcome(resp: Response, faces: map<string, FaceRecord>)

  /** `/post-face` as a function of the collection: a 400 for a missing file
      or field, a 500 when an image cannot be read, otherwise the user's
      document is replaced in full and nothing else changes. Missing faces
      never fail the request. */
  function EnrollOutcome(faces: map<string, FaceRecord>, req: Request, detect: string -> Detection)
    : (o: Outcome)
    ensures !EnrollFilesGiven(req) ==> o.resp == BadRequest(FilesMissing)
    ensures EnrollFilesGiven(req) && !EnrollRequestValid(req) ==> o.resp == BadRequest(LabelOrUserIdMissing)
    ensures o.resp == Stored <==>
              EnrollRequestValid(req) && AllReadable(DetectAll(detect, EnrollImages(req)))
    ensures EnrollRequestValid(req) && !AllReadable(DetectAll(detect, EnrollImages(req))) ==>
              o.resp == ServerError
    ensures !o.resp.Stored? ==> o.faces == faces
    ensures o.resp.Stored? ==>
              var userId := req.body["userId"];
              o.faces == faces[userId := EnrolledRecord(EnrollImages(req), req.body["label"], userId, detect)]
  {
    if !EnrollFilesGiven(req) then Outcome(BadRequest(FilesMissing), faces)
    else if !Given(req.body, "label") || !Given(req.body, "userId") then
      Outcome(BadRequest(LabelOrUserIdMissing), faces)
    else
      var images, userId := EnrollImages(req), req.body["userId"];
      if AllReadable(DetectAll(detect, images)) then
        Outcome(Stored, faces[userId := EnrolledRecord(images, req.body["label"], userId, detect)])
      else
        Outcome(ServerError, faces)
  }

  /** `/check-face` as a function of the collection: 400 for a missing file
      or user id, 404 for an unknown user or a probe without a face, 500 when
      the probe cannot be read; otherwise the reply is the match result,
      whether or not the window was updated. Only the claimed user's window
      can change, and only when the distance is within UpdateThreshold; it
      then gains the probe as its newest entry. */
  function CheckOutcome(faces: map<string, FaceRecord>, req: Request,
                        detect: string -> Detection, matcher: Matcher): (o: Outcome)
    ensures !("File1" in req.files) ==> o.resp == BadRequest(FileMissing)
    ensures "File1" in req.files && !Given(req.body, "userId") ==> o.resp == BadRequest(UserIdMissing)
    ensures CheckRequestValid(req) && req.body["userId"] !in faces ==> o.resp == NotFound(NoFaceData)
    ensures CheckRequestValid(req) && req.body["userId"] in faces ==>
              match detect(req.files["File1"])
              case NoFace => o.resp == NotFound(NoFaceInImage)
              case Failed => o.resp == ServerError
              case Face(probe) =>
                var rec := faces[req.body["userId"]];
                o.resp == Checked(matcher(rec.name, rec.descriptions, MatchThreshold, probe))
    ensures o.faces.Keys == faces.Keys
    ensures o.faces != faces ==> o.resp.Checked? && o.resp.result.distance <= UpdateThreshold
    ensures o.resp.Checked? && o.resp.result.distance > UpdateThreshold ==> o.faces == faces
    ensures o.resp.Checked? && o.resp.result.distance <= UpdateThreshold ==>
              var userId := req.body["userId"];
              var rec := faces[userId];
              o.faces == faces[userId := rec.(descriptions := Push(rec.descriptions, detect(req.files["File1"]).descriptor))]
  {
    if !("File1" in req.files) then Outcome(BadRequest(FileMissing), faces)
    else if !Given(req.body, "userId") then Outcome(BadRequest(UserIdMissing), faces)
    else
      var userId := req.body["userId"];
      if userId !in faces then Outcome(NotFound(NoFaceData), faces)
      else
        var rec := faces[userId];
        match detect(req.files["File1"])
        case Failed => Outcome(ServerError, faces)
        case NoFace => Outcome(NotFound(NoFaceInImage), faces)
        case Face(probe) =>
          var m := matcher(rec.name, rec.descriptions, MatchThreshold, probe);
          if m.distance <= UpdateThreshold then
            Outcome(Checked(m), faces[userId := rec.(descriptions := Push(rec.descriptions, probe))])
          else
            Outcome(Checked(m), faces)
  }

  /** Storing a record under its own id, with a bounded window, keeps the
      collection well formed. */
  lemma UpdateKeepsWellFormed(faces: map<string, FaceRecord>, userId: string, rec: FaceRecord)
    requires WellFormed(faces) && rec.userId == userId && |rec.descriptions| <= MaxWindow
    ensures WellFormed(faces[userId := rec])
  {
    var updated := faces[userId := rec];
    forall u | u in updated
      ensures updated[u].userId == u && |updated[u].descriptions| <= MaxWindow
    {
      if u != userId {
        assert updated[u] == faces[u];
      }
    }
  }

  /** Enrollment keeps every document under its own id with a bounded
      window. */
  lemma EnrollKeepsWellFormed(faces: map<string, FaceRecord>, req: Request, detect: string -> Detection)
    requires WellFormed(faces)
    ensures WellFormed(EnrollOutcome(faces, req, detect).faces)
  {
    var o := EnrollOutcome(faces, req, detect);
    if o.resp.Stored? {
      var userId := req.body["userId"];
      assert |o.faces[userId].descriptions| <= MaxWindow;
    }
  }

  /** A check keeps every document under its own id with a bounded window. */
  lemma CheckKeepsWellFormed(faces: map<string, FaceRecord>, req: Request,
                             detect: string -> Detection, matcher: Matcher)
    requires WellFormed(faces)
    ensures WellFormed(CheckOutcome(faces, req, detect, matcher).faces)
  {
    var o := CheckOutcome(faces, req, detect, matcher);
    if o.faces != faces {
      var userId := req.body["userId"];
      var rec, probe := faces[userId], detect(req.files["File1"]).descriptor;
      PushShape(rec.descriptions, probe);
      UpdateKeepsWellFormed(faces, userId, rec.(descriptions := Push(rec.descriptions, probe)));
    }
  }

  /** The service state: the `faces` collection. */
  class App {
    var faces: map<string, FaceRecord>

    ghost predicate Valid()
      reads this
    {
      WellFormed(faces)
    }

    constructor ()
      ensures Valid() && faces == map[]
    {
      faces := map[];
    }

    /** Enrollment: collect the detected descriptors of the batch and write a
        new document for the user, replacing any earlier one in full. Misses
        are skipped; a failing image aborts before anything is written. */
    method UploadLabeledImages(images: seq<string>, name: string, userId: string,
                               detect: string -> Detection)
      returns (ok: bool)
      requires Valid()
      modifies this
      ensures Valid()
      ensures ok == AllReadable(DetectAll(detect, images))
      ensures faces == if ok then old(faces)[userId := EnrolledRecord(images, name, userId, detect)]
                       else old(faces)
    {
      var descriptions;
      ok, descriptions := CollectDescriptors(images, detect);
      if !ok {
        return;
      }
      faces := faces[userId := FaceRecord(userId, name, KeepLast(descriptions, MaxWindow))];
    }

    /** `/post-face`: validate the upload, then enroll its three images. */
    method PostFace(req: Request, detect: string -> Detection) returns (resp: Response)
      requires Valid()
      modifies this
      ensures Valid()
      ensures Outcome(resp, faces) == EnrollOutcome(old(faces), req, detect)
    {
      EnrollKeepsWellFormed(faces, req, detect);
      if !EnrollFilesGiven(req) {
        return BadRequest(FilesMissing);
      }
      if !Given(req.body, "label") || !Given(req.body, "userId") {
        return BadRequest(LabelOrUserIdMissing);
      }
      var ok := UploadLabeledImages(EnrollImages(req), req.body["label"], req.body["userId"], detect);
      resp := if ok then Stored else ServerError;
    }

    /** `/check-face`: fetch the user's document, detect the probe face, ask
        the matcher, absorb the probe when the distance is within
        UpdateThreshold, and reply with the match result either way. */
    method CheckFace(req: Request, detect: string -> Detection, matcher: Matcher)
      returns (resp: Response)
      requires Valid()
      modifies this
      ensures Valid()
      ensures Outcome(resp, faces) == CheckOutcome(old(faces), req, detect, matcher)
    {
      CheckKeepsWellFormed(faces, req, detect, matcher);
      if !("File1" in req.files) {
        return BadRequest(FileMissing);
      }
      if !Given(req.body, "userId") {
        return BadRequest(UserIdMissing);
      }
      var file, userId := req.files["File1"], req.body["userId"];
      if userId !in faces {
        return NotFound(NoFaceData);
      }
      var rec := faces[userId];
      var detection := detect(file);
      if detection.Failed? {
        return ServerError;
      }
      if detection.NoFace? {
        return NotFound(NoFaceInImage);
      }
      var probe := detection.descriptor;
      var m := matcher(rec.name, rec.descriptions, MatchThreshold, probe);
      if m.distance <= UpdateThreshold {
        faces := faces[userId := rec.(descriptions := Push(rec.descriptions, probe))];
      }
      resp := Checked(m);
    }
  }

  /** `/post-face` with File2 showing no face stores the other two
      descriptors, in upload order, and replies success. */
  lemma PostFaceSkipsFacelessImage(a: Descriptor, c: Descriptor)
    ensures EnrollOutcome(map[], Request(map["File1" := "f1", "File2" := "f2", "File3" := "f3"],
                                         map["label" := "Ana", "userId" := "u1"]),
                          path => if path == "f1" then Face(a) else if path == "f2" then NoFace else Face(c))
            == Outcome(Stored, map["u1" := FaceRecord("u1", "Ana", [a, c])])
  {
    var req := Request(map["File1" := "f1", "File2" := "f2", "File3" := "f3"],
                       map["label" := "Ana", "userId" := "u1"]);
    var batch: string -> Detection :=
      path => if path == "f1" then Face(a) else if path == "f2" then NoFace else Face(c);
    assert EnrollRequestValid(req) && EnrollImages(req) == ["f1", "f2", "f3"];
    assert DetectAll(batch, ["f1", "f2", "f3"]) == [Face(a), NoFace, Face(c)];
    FacelessImageSkipped(a, c);
  }

  /** Enrolling a user again replaces the document in full: nothing of the
      earlier window survives, whatever it held. */
  lemma ReenrollLeavesNoResidue(earlier: FaceRecord, b: Descriptor)
    ensures EnrollOutcome(map["u1" := earlier],
                          Request(map["File1" := "f1", "File2" := "f2", "File3" := "f3"],
                                  map["label" := "Ana", "userId" := "u1"]),
                          path => if path == "f3" then Face(b) else NoFace)
            == Outcome(Stored, map["u1" := FaceRecord("u1", "Ana", [b])])
  {
    var req := Request(map["File1" := "f1", "File2" := "f2", "File3" := "f3"],
                       map["label" := "Ana", "userId" := "u1"]);
    var batch: string -> Detection := path => if path == "f3" then Face(b) else NoFace;
    var ds := [NoFace, NoFace, Face(b)];
    assert EnrollRequestValid(req) && EnrollImages(req) == ["f1", "f2", "f3"];
    assert DetectAll(batch, ["f1", "f2", "f3"]) == ds;
    NoFacesNoDescriptors(ds[..2]);
    assert Detected(ds) == [b];
  }

  /** A probe at distance 0.35 from a one-descriptor window is reported and
      absorbed: the window grows to two entries, the probe last. */
  lemma CloseProbeAbsorbed(b: Descriptor, probe: Descriptor)
    ensures var o := CheckOutcome(map["u1" := FaceRecord("u1", "Ana", [b])],
                                  Request(map["File1" := "p"], map["userId" := "u1"]),
                                  path => Face(probe),
                                  (name, w, t, d) => MatchResult(name, 0.35));
            o == Outcome(Checked(MatchResult("Ana", 0.35)),
                         map["u1" := FaceRecord("u1", "Ana", [b, probe])])
  {
    var faces := map["u1" := FaceRecord("u1", "Ana", [b])];
    var o := CheckOutcome(faces, Request(map["File1" := "p"], map["userId" := "u1"]),
                          path => Face(probe), (name, w, t, d) => MatchResult(name, 0.35));
    assert Push([b], probe) == [b, probe];
    assert o.resp == Checked(MatchResult("Ana", 0.35));
    assert o.faces == faces["u1" := FaceRecord("u1", "Ana", [b, probe])];
    assert faces["u1" := FaceRecord("u1", "Ana", [b, probe])] == map["u1" := FaceRecord("u1", "Ana", [b, probe])];
  }

  /** A probe at distance 0.5 is reported but not absorbed. */
  lemma FarProbeKept(b: Descriptor, probe: Descriptor)
    ensures var faces := map["u1" := FaceRecord("u1", "Ana", [b])];
            CheckOutcome(faces, Request(map["File1" := "p"], map["userId" := "u1"]),
                         path => Face(probe), (name, w, t, d) => MatchResult(name, 0.5))
            == Outcome(Checked(MatchResult("Ana", 0.5)), faces)
  {
  }
}
