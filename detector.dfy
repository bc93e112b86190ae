/** The face detector and recogniser wrappers and the complete detector that
    owns the gallery of enrolled targets and matches detected faces against
    it. */
module FaceDetector {
  import opened DetectorTypes

  /** The YuNet face detector: a model handle plus the input size and face
      cap that are reconfigured before every detection. */
  class YuNet {
    const model: DetectorModel
    var inputSize: Size
    var topK: int

    constructor (model: DetectorModel, inputSize: Size, topK: int)
      ensures this.model == model && this.inputSize == inputSize && this.topK == topK
    {
      this.model := model;
      this.inputSize := inputSize;
      this.topK := topK;
    }

    method SetInputSize(inputSize: Size)
      modifies this
      ensures this.inputSize == inputSize && topK == old(topK)
    {
      this.inputSize := inputSize;
    }

    method SetTopK(topK: int)
      modifies this
      ensures this.topK == topK && inputSize == old(inputSize)
    {
      this.topK := topK;
    }

    /** The face rows the model finds in an image under the current settings. */
    function Infer(image: Image): (rows: seq<FaceRow>)
      reads this
      ensures rows == model.detect(image, inputSize, topK)
    {
      model.detect(image, inputSize, topK)
    }
  }

  /** The SFace recogniser: a model handle, the distance type chosen at
      construction and one acceptance threshold per distance type. */
  class SFace {
    const recognizer: Recognizer
    const distanceType: int
    var thresholdCosine: real
    var thresholdNorml2: real

    constructor (recognizer: Recognizer, distanceType: int)
      ensures this.recognizer == recognizer && this.distanceType == distanceType
      ensures thresholdCosine == 0.363 && thresholdNorml2 == 1.128
    {
      this.recognizer := recognizer;
      this.distanceType := distanceType;
      thresholdCosine := 0.363;
      thresholdNorml2 := 1.128;
    }

    method SetThresholdCosine(cosineThreshold: real)
      modifies this
      ensures thresholdCosine == cosineThreshold && thresholdNorml2 == old(thresholdNorml2)
    {
      thresholdCosine := cosineThreshold;
    }

    method SetThresholdNorml2(norml2Threshold: real)
      modifies this
      ensures thresholdNorml2 == norml2Threshold && thresholdCosine == old(thresholdCosine)
    {
      thresholdNorml2 := norml2Threshold;
    }

    /** The feature of one detected face of an image. */
    function ExtractFeatures(origImage: Image, face: FaceRow): (feature: Feature)
      ensures feature == recognizer.extract(origImage, face)
    {
      recognizer.extract(origImage, face)
    }

    /** The raw score of a query against a target, and whether it passes the
        threshold of the configured distance type: at least the cosine
        threshold for the cosine type, at most the L2 threshold otherwise. */
    function MatchFeatures(targetFeatures: Feature, queryFeatures: Feature): (r: (real, bool))
      reads this
      ensures r.0 == recognizer.score(targetFeatures, queryFeatures, distanceType)
      ensures distanceType == FR_COSINE ==> (r.1 <==> r.0 >= thresholdCosine)
      ensures distanceType != FR_COSINE ==> (r.1 <==> r.0 <= thresholdNorml2)
    {
      var score := recognizer.score(targetFeatures, queryFeatures, distanceType);
      if distanceType == FR_COSINE then (score, score >= thresholdCosine)
      else (score, score <= thresholdNorml2)
    }
  }

  /** The score of a gallery entry against a query feature. */
  function Score(sface: SFace, target: TargetData, query: Feature): real
    reads sface
  {
    sface.MatchFeatures(target.feature, query).0
  }

  /** Whether the recogniser accepts a gallery entry for a query feature. */
  function Accepts(sface: SFace, target: TargetData, query: Feature): bool
    reads sface
  {
    sface.MatchFeatures(target.feature, query).1
  }

  /** The record a face starts from before the gallery is scanned. */
  function Unmatched(face: FaceRow): MatchData
  {
    DefaultMatchData().(face := face)
  }

  /** One step of the scan: an entry replaces the running best only when its
      score is strictly greater than the running confidence. */
  function Consider(sface: SFace, best: MatchData, target: TargetData, query: Feature): (r: MatchData)
    reads sface
    ensures r.face == best.face && r.conf >= best.conf
    ensures Score(sface, target, query) <= best.conf ==> r == best
    ensures Score(sface, target, query) > best.conf ==>
              r.conf == Score(sface, target, query) && r.name == target.name && r.matched == Accepts(sface, target, query)
  {
    var (score, accept) := sface.MatchFeatures(target.feature, query);
    if score <= best.conf then best
    else best.(conf := score, matched := accept, name := target.name)
  }

  /** The match record of one face after scanning the gallery in order. */
  function MatchFace(sface: SFace, gallery: seq<TargetData>, face: FaceRow, query: Feature): (r: MatchData)
    reads sface
    ensures r.face == face && r.conf >= 0.0
    ensures r.conf == 0.0 ==> r == Unmatched(face)
    ensures r.conf > 0.0 ==> exists k :: 0 <= k < |gallery| && r.name == gallery[k].name && r.conf == Score(sface, gallery[k], query)
    decreases |gallery|
  {
    if gallery == [] then Unmatched(face)
    else Consider(sface, MatchFace(sface, gallery[..|gallery| - 1], face, query), gallery[|gallery| - 1], query)
  }

  /** Entry k of the gallery is the first entry whose score equals the
      record's confidence, and the record carries its name and decision. */
  ghost predicate WonBy(sface: SFace, gallery: seq<TargetData>, query: Feature, k: int, r: MatchData)
    reads sface
  {
    && 0 <= k < |gallery|
    && r.conf == Score(sface, gallery[k], query)
    && r.name == gallery[k].name
    && r.matched == Accepts(sface, gallery[k], query)
    && forall i :: 0 <= i < k ==> Score(sface, gallery[i], query) < r.conf
  }

  /** The scan computes the maximum of 0 and all scores; the first entry that
      reaches a positive maximum wins and determines name and decision; when
      no score is positive the face stays unmatched. */
  lemma {:induction false} MatchFaceSelectsFirstMaximum(sface: SFace, gallery: seq<TargetData>, face: FaceRow, query: Feature)
    ensures MatchFace(sface, gallery, face, query).face == face
    ensures MatchFace(sface, gallery, face, query).conf >= 0.0
    ensures forall i :: 0 <= i < |gallery| ==> Score(sface, gallery[i], query) <= MatchFace(sface, gallery, face, query).conf
    ensures (forall i :: 0 <= i < |gallery| ==> Score(sface, gallery[i], query) <= 0.0) ==>
              MatchFace(sface, gallery, face, query) == Unmatched(face)
    ensures (exists i :: 0 <= i < |gallery| && Score(sface, gallery[i], query) > 0.0) ==>
              exists k :: WonBy(sface, gallery, query, k, MatchFace(sface, gallery, face, query))
    decreases |gallery|
  {
    if gallery != [] {
      MatchFaceSelectsFirstMaximum(sface, gallery[..|gallery| - 1], face, query);
      ScanStep(sface, gallery, face, query);
    }
  }

  /** The induction step of the scan: what holds of a prefix holds once the
      next entry has been considered. */
  lemma ScanStep(sface: SFace, gallery: seq<TargetData>, face: FaceRow, query: Feature)
    requires gallery != []
    requires var prefix := gallery[..|gallery| - 1];
             forall i :: 0 <= i < |prefix| ==> Score(sface, prefix[i], query) <= MatchFace(sface, prefix, face, query).conf
    requires var prefix := gallery[..|gallery| - 1];
             (forall i :: 0 <= i < |prefix| ==> Score(sface, prefix[i], query) <= 0.0) ==>
               MatchFace(sface, prefix, face, query) == Unmatched(face)
    requires var prefix := gallery[..|gallery| - 1];
             (exists i :: 0 <= i < |prefix| && Score(sface, prefix[i], query) > 0.0) ==>
               exists k :: WonBy(sface, prefix, query, k, MatchFace(sface, prefix, face, query))
    ensures && (forall i :: 0 <= i < |gallery| ==> Score(sface, gallery[i], query) <= MatchFace(sface, gallery, face, query).conf)
            && ((forall i :: 0 <= i < |gallery| ==> Score(sface, gallery[i], query) <= 0.0) ==>
                  MatchFace(sface, gallery, face, query) == Unmatched(face))
            && ((exists i :: 0 <= i < |gallery| && Score(sface, gallery[i], query) > 0.0) ==>
                  exists k :: WonBy(sface, gallery, query, k, MatchFace(sface, gallery, face, query)))
  {
    var n := |gallery|;
    var prefix, last := gallery[..n - 1], gallery[n - 1];
    var before := MatchFace(sface, prefix, face, query);
    var r := MatchFace(sface, gallery, face, query);
    assert r == Consider(sface, before, last, query);
    assert forall i :: 0 <= i < n - 1 ==> gallery[i] == prefix[i];
    if Score(sface, last, query) <= before.conf {
      if exists i :: 0 <= i < n && Score(sface, gallery[i], query) > 0.0 {
        if before == Unmatched(face) {
          assert false;
        }
        var k :| WonBy(sface, prefix, query, k, before);
        assert WonBy(sface, gallery, query, k, r);
      }
    } else {
      assert WonBy(sface, gallery, query, n - 1, r);
    }
  }

  /** An empty gallery leaves every face unmatched. */
  lemma EmptyGalleryLeavesUnmatched(sface: SFace, face: FaceRow, query: Feature)
    ensures MatchFace(sface, [], face, query) == MatchData("?", face, 0.0, false)
  {
  }

  /** Scores at most 0 never win: if no entry scores above 0 the face is
      reported as "?" with confidence 0 and no match. For the L2 distance
      this includes a gallery entry identical to the query (distance 0). */
  lemma NonPositiveScoresNeverWin(sface: SFace, gallery: seq<TargetData>, face: FaceRow, query: Feature)
    requires forall i :: 0 <= i < |gallery| ==> Score(sface, gallery[i], query) <= 0.0
    ensures MatchFace(sface, gallery, face, query) == MatchData("?", face, 0.0, false)
  {
    MatchFaceSelectsFirstMaximum(sface, gallery, face, query);
  }

  /** The scan keeps the greatest score for the L2 distance too, so the
      winner is the farthest entry: one entry farther than the L2 threshold
      is enough for the face to be rejected. */
  lemma L2FarEntryForcesReject(sface: SFace, gallery: seq<TargetData>, face: FaceRow, query: Feature, far: int)
    requires sface.distanceType != FR_COSINE
    requires 0 <= far < |gallery| && Score(sface, gallery[far], query) > sface.thresholdNorml2
    ensures !MatchFace(sface, gallery, face, query).matched
  {
    MatchFaceSelectsFirstMaximum(sface, gallery, face, query);
    var r := MatchFace(sface, gallery, face, query);
    if exists i :: 0 <= i < |gallery| && Score(sface, gallery[i], query) > 0.0 {
      var k :| WonBy(sface, gallery, query, k, r);
      assert Score(sface, gallery[far], query) <= r.conf;
    }
  }

  /** With equal positive scores the earlier entry is kept. */
  lemma TieKeepsEarlierEntry(sface: SFace, first: TargetData, second: TargetData, face: FaceRow, query: Feature)
    requires Score(sface, first, query) == Score(sface, second, query) > 0.0
    ensures MatchFace(sface, [first, second], face, query)
         == MatchData(first.name, face, Score(sface, first, query), Accepts(sface, first, query))
  {
    assert [first, second][..1] == [first];
    assert [first][..0] == [];
    assert MatchFace(sface, [], face, query) == Unmatched(face);
    var one := MatchFace(sface, [first], face, query);
    assert one == Consider(sface, MatchFace(sface, [first][..0], face, query), first, query);
    assert one == Consider(sface, Unmatched(face), first, query);
    assert MatchFace(sface, [first, second], face, query) == Consider(sface, one, second, query);
  }

  /** The detection result for an image: the rows the model detects with
      the image's own size as input size and the given face cap, each paired
      with the feature extracted for it. */
  function Detection(model: DetectorModel, recognizer: Recognizer, input: Image, topK: int): (r: DetectResult)
    ensures r.faces == model.detect(input, input.size, topK)
    ensures |r.features| == |r.faces|
    ensures forall i :: 0 <= i < |r.faces| ==> r.features[i] == recognizer.extract(input, r.faces[i])
  {
    var faces := model.detect(input, input.size, topK);
    DetectResult(faces, seq(|faces|, i requires 0 <= i < |faces| => recognizer.extract(input, faces[i])))
  }

  /** The complete detector: the two model wrappers and the gallery. */
  class Detector {
    const yunet: YuNet
    const sface: SFace
    var targets: seq<TargetData>

    constructor (yunet: YuNet, sface: SFace)
      ensures this.yunet == yunet && this.sface == sface && targets == []
    {
      this.yunet := yunet;
      this.sface := sface;
      targets := [];
    }

    /** Appends one entry; no uniqueness check. */
    method AddTargetData(newTargetData: TargetData)
      modifies this`targets
      ensures targets == old(targets) + [newTargetData]
    {
      targets := targets + [newTargetData];
    }

    /** Appends a batch in its order; duplicate names coexist. */
    method AddTargetDatas(newTargetDataVec: seq<TargetData>)
      modifies this`targets
      ensures targets == old(targets) + newTargetDataVec
      ensures |targets| == |old(targets)| + |newTargetDataVec|
    {
      for i := 0 to |newTargetDataVec|
        invariant targets == old(targets) + newTargetDataVec[..i]
      {
        targets := targets + [newTargetDataVec[i]];
      }
      assert newTargetDataVec[..|newTargetDataVec|] == newTargetDataVec;
    }

    method ClearTargetDatas()
      modifies this`targets
      ensures targets == []
    {
      targets := [];
    }

    /** Configures the detector for the image and the face cap, detects once
        and extracts one feature per detected row, index by index. */
    method DetectFace(input: Image, topK: int := 1) returns (r: DetectResult)
      modifies yunet
      ensures yunet.inputSize == input.size && yunet.topK == topK
      ensures r == Detection(yunet.model, sface.recognizer, input, topK)
      ensures r.Paired()
    {
      yunet.SetInputSize(input.size);
      yunet.SetTopK(topK);
      var faces := yunet.Infer(input);
      var features: seq<Feature> := [];
      for i := 0 to |faces|
        invariant |features| == i
        invariant forall k :: 0 <= k < i ==> features[k] == sface.recognizer.extract(input, faces[k])
      {
        var feature := sface.ExtractFeatures(input, faces[i]);
        features := features + [feature];
      }
      r := DetectResult(faces, features);
      assert r.features == Detection(yunet.model, sface.recognizer, input, topK).features;
    }

    /** One record per detected face, in detection order, each the result of
        scanning the whole gallery for that face's feature. */
    method MatchTargetFace(detectResult: DetectResult) returns (r: seq<MatchData>)
      requires detectResult.Paired()
      ensures |r| == |detectResult.faces|
      ensures forall i :: 0 <= i < |r| ==>
                r[i] == MatchFace(sface, targets, detectResult.faces[i], detectResult.features[i])
    {
      r := [];
      for i := 0 to |detectResult.faces|
        invariant |r| == i
        invariant forall k :: 0 <= k < i ==>
                    r[k] == MatchFace(sface, targets, detectResult.faces[k], detectResult.features[k])
      {
        var face, query := detectResult.faces[i], detectResult.features[i];
        var matchData := Unmatched(face);
        for j := 0 to |targets|
          invariant matchData == MatchFace(sface, targets[..j], face, query)
        {
          var targetData := targets[j];
          assert targets[..j + 1][..j] == targets[..j];
          var (score, accept) := sface.MatchFeatures(targetData.feature, query);
          if score > matchData.conf {
            matchData := matchData.(conf := score, matched := accept, name := targetData.name);
          }
        }
        assert targets[..|targets|] == targets;
        r := r + [matchData];
      }
    }
  }

  /** Clearing the gallery makes every following match the empty-gallery case. */
  method ClearThenMatch(detector: Detector, detectResult: DetectResult) returns (r: seq<MatchData>)
    requires detectResult.Paired()
    modifies detector
    ensures detector.targets == []
    ensures |r| == |detectResult.faces|
    ensures forall i :: 0 <= i < |r| ==> r[i] == MatchData("?", detectResult.faces[i], 0.0, false)
  {
    detector.ClearTargetDatas();
    r := detector.MatchTargetFace(detectResult);
  }
}
