/** The enrollment accumulator: walk the uploaded images in order, skip those
    in which no face is found, collect one descriptor per detected face. */
module Enrollment {
  import opened Window

  /** What loading an image and running single-face detection yields. */
  datatype Detection =
    | Face(descriptor: Descriptor)  // a face was found, with its descriptor
    | NoFace                        // the detector returned nothing
    | Failed                        // the image could not be loaded or the detector threw

  /** The extractor applied to each image of a batch, in order. */
  function DetectAll(detect: string -> Detection, images: seq<string>): seq<Detection>
  {
    seq(|images|, i requires 0 <= i < |images| => detect(images[i]))
  }

  /** No image of the batch made the extractor fail. */
  predicate AllReadable(ds: seq<Detection>)
  {
    forall i :: 0 <= i < |ds| ==> !ds[i].Failed?
  }

  /** The descriptors of the detected faces, in input order, misses omitted. */
  function Detected(ds: seq<Detection>): (r: seq<Descriptor>)
    ensures |r| <= |ds|
  {
    if ds == [] then []
    else
      var last := ds[|ds| - 1];
      Detected(ds[..|ds| - 1]) + (if last.Face? then [last.descriptor] else [])
  }

  /** The positions of the images in which a face was detected, ascending. */
  ghost function FaceIndices(ds: seq<Detection>): seq<nat>
  {
    if ds == [] then []
    else FaceIndices(ds[..|ds| - 1]) + (if ds[|ds| - 1].Face? then [|ds| - 1] else [])
  }

  /** The accumulator is the input order restricted to images with a face:
      its j-th entry is the descriptor of the j-th image that had a face, the
      contributing positions strictly increase, and every image with a face
      contributes. */
  lemma {:induction false} DetectedFollowsInput(ds: seq<Detection>)
    ensures |FaceIndices(ds)| == |Detected(ds)|
    ensures forall j :: 0 <= j < |Detected(ds)| ==>
              FaceIndices(ds)[j] < |ds| && ds[FaceIndices(ds)[j]] == Face(Detected(ds)[j])
    ensures forall j, k :: 0 <= j < k < |FaceIndices(ds)| ==> FaceIndices(ds)[j] < FaceIndices(ds)[k]
    ensures forall i :: 0 <= i < |ds| && ds[i].Face? ==> i in FaceIndices(ds)
  {
    if ds != [] {
      var n := |ds| - 1;
      var p := ds[..n];
      DetectedFollowsInput(p);
      var ip, dp := FaceIndices(p), Detected(p);
      var ext := if ds[n].Face? then [n] else [];
      var dext := if ds[n].Face? then [ds[n].descriptor] else [];
      assert FaceIndices(ds) == ip + ext;
      assert Detected(ds) == dp + dext;
      forall j | 0 <= j < |dp + dext|
        ensures (ip + ext)[j] < |ds| && ds[(ip + ext)[j]] == Face((dp + dext)[j])
      {
        if j < |ip| {
          assert ds[ip[j]] == p[ip[j]];
        }
      }
      forall i | 0 <= i < |ds| && ds[i].Face?
        ensures i in ip + ext
      {
        if i < n {
          assert p[i] == ds[i];
        }
      }
    }
  }

  /** Detection over a concatenated batch is the concatenation of the
      detections: a miss in one part never disturbs the other part. */
  lemma {:induction false} DetectedAppend(xs: seq<Detection>, ys: seq<Detection>)
    ensures Detected(xs + ys) == Detected(xs) + Detected(ys)
  {
    if ys == [] {
      assert xs + ys == xs;
    } else {
      var init := ys[..|ys| - 1];
      DetectedAppend(xs, init);
      assert (xs + ys)[..|xs + ys| - 1] == xs + init;
    }
  }

  /** A batch in which no face is found yields an empty accumulator. */
  lemma {:induction false} NoFacesNoDescriptors(ds: seq<Detection>)
    requires forall i :: 0 <= i < |ds| ==> ds[i].NoFace?
    ensures Detected(ds) == []
  {
    if ds != [] {
      NoFacesNoDescriptors(ds[..|ds| - 1]);
    }
  }

  /** Three images with no face in the second: the accumulator holds the
      first and third descriptors, in that order. */
  lemma FacelessImageSkipped(a: Descriptor, c: Descriptor)
    ensures Detected([Face(a), NoFace, Face(c)]) == [a, c]
  {
    var ds := [Face(a), NoFace, Face(c)];
    assert ds[..2] == [Face(a), NoFace] && ds[..2][..1] == [Face(a)] && [Face(a)][..0] == [];
    assert Detected([Face(a)]) == [a];
    assert Detected(ds[..2]) == [a];
  }

  /** Enrollment followed by any number of adaptive updates keeps the last
      MaxWindow descriptors of the whole history: the enrolled faces in
      input order, then the admitted probes in arrival order. */
  lemma EnrollThenAdapt(ds: seq<Detection>, probes: seq<Descriptor>)
    ensures PushAll(KeepLast(Detected(ds), MaxWindow), probes)
            == KeepLast(Detected(ds) + probes, MaxWindow)
  {
    SlidingWindow(KeepLast(Detected(ds), MaxWindow), probes);
    KeepLastAbsorbs(Detected(ds), probes, MaxWindow);
  }

  /** The loop of the enrollment routine: load and detect each image in turn,
      `continue` on a miss, push the descriptor otherwise; a failing image
      aborts the walk. On success the accumulator holds exactly the detected
      descriptors in input order. */
  method CollectDescriptors(images: seq<string>, detect: string -> Detection)
    returns (ok: bool, descriptions: seq<Descriptor>)
    ensures ok == AllReadable(DetectAll(detect, images))
    ensures ok ==> descriptions == Detected(DetectAll(detect, images))
  {
    ghost var ds := DetectAll(detect, images);
    descriptions := [];
    var i := 0;
    while i < |images|
      invariant 0 <= i <= |images|
      invariant AllReadable(ds[..i])
      invariant descriptions == Detected(ds[..i])
    {
      assert ds[..i + 1][..i] == ds[..i];
      var detection := detect(images[i]);
      assert ds[i] == detection;
      if detection.Failed? {
        assert !AllReadable(ds);
        return false, descriptions;
      }
      i := i + 1;
      if detection.NoFace? {
        continue;
      }
      descriptions := descriptions + [detection.descriptor];
    }
    assert ds[..i] == ds;
    ok := true;
  }
}
