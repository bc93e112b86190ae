/** The value types, constant tables and struct defaults of the face detector
    header: detection results, gallery entries, match records and the table
    of inference backends. */
module DetectorTypes {
  import opened Wrappers

  /** A face feature vector produced by the recognition model. It is never
      inspected by the modelled code, only handed to the score function. */
  type Feature = seq<real>

  /** One row of the detector's output: box x, y, w, h, five landmark
      coordinate pairs and a confidence. Never inspected by the matcher. */
  type FaceRow = seq<real>

  datatype Size = Size(width: int, height: int)

  /** An input frame or enrollment image; only its size is used here. */
  datatype Image = Image(size: Size, pixels: seq<int>)

  /** The distance type codes of cv::FaceRecognizerSF::DisType. */
  const FR_COSINE: int := 0
  const FR_NORM_L2: int := 1

  /** The handle to a cv::FaceRecognizerSF: the score it computes between a
      target and a query feature under a distance type, and the feature it
      extracts from an image after aligning and cropping one detected face. */
  datatype Recognizer = Recognizer(
    score: (Feature, Feature, int) -> real,
    extract: (Image, FaceRow) -> Feature)

  /** The handle to a cv::FaceDetectorYN: the face rows it detects in an
      image for a given configured input size and face cap. */
  datatype DetectorModel = DetectorModel(detect: (Image, Size, int) -> seq<FaceRow>)

  /** One enrolled identity: a name and its reference feature. */
  datatype TargetData = TargetData(name: string, feature: Feature)

  /** The match decision for one detected face. */
  datatype MatchData = MatchData(name: string, face: FaceRow, conf: real, matched: bool)

  /** The faces found in one image and the feature extracted from each. */
  datatype DetectResult = DetectResult(faces: seq<FaceRow>, features: seq<Feature>)
  {
    /** What every consumer of a detection result relies on: a feature for
        every face row, so that features[i] may be read for each row i. */
    predicate Paired() {
      |features| >= |faces|
    }
  }

  /** A MatchData as its member initialisers leave it. */
  function DefaultMatchData(): (r: MatchData)
    ensures r.name == "?" && r.face == [] && r.conf == 0.0 && !r.matched
  {
    MatchData("?", [], 0.0, false)
  }

  /** The inference backends and targets named in the backend table. */
  datatype Backend = DnnBackendOpenCV | DnnBackendCuda | DnnBackendTimVX | DnnBackendCann
  datatype Target = DnnTargetCpu | DnnTargetCuda | DnnTargetCudaFp16 | DnnTargetNpu

  /** The table of (backend, target) pairs selectable by index. */
  const BackendTargetPairs: seq<(Backend, Target)> := [
    (DnnBackendOpenCV, DnnTargetCpu),
    (DnnBackendCuda, DnnTargetCuda),
    (DnnBackendCuda, DnnTargetCudaFp16),
    (DnnBackendTimVX, DnnTargetNpu),
    (DnnBackendCann, DnnTargetNpu)
  ]

  lemma BackendTargetTable()
    ensures |BackendTargetPairs| == 5
    ensures BackendTargetPairs[0] == (DnnBackendOpenCV, DnnTargetCpu)
    ensures forall i :: 0 <= i < |BackendTargetPairs| && BackendTargetPairs[i].1 == DnnTargetNpu ==> i >= 3
  {
  }

  /** Indexing the backend table with bounds checking, as std::vector::at does. */
  function BackendTargetAt(index: int): (r: Result<(Backend, Target), Exception>)
    ensures r.Success? <==> 0 <= index < 5
    ensures r.Failure? ==> r.error == OutOfRange
    ensures r.Success? ==> r.value == BackendTargetPairs[index]
  {
    if 0 <= index < |BackendTargetPairs| then Success(BackendTargetPairs[index]) else Failure(OutOfRange)
  }
}
