/** The application's setup logic: naming enrolled targets after their image
    files, building the gallery from the targets folder, and selecting the
    inference backend from the configuration. */
module Application {
  import opened Wrappers
  import opened DetectorTypes
  import opened FaceDetector
  import opened ConfigReading
  import opened Config

  /** std::size_t is 64 bits wide; npos is its largest value. */
  const SizeModulus: int := 0x1_0000_0000_0000_0000
  const NPos: int := SizeModulus - 1

  /** The index of the last occurrence of a character, or npos. */
  function FindLastOf(s: string, c: char): (pos: int)
    ensures (pos == NPos && c !in s) || (0 <= pos < |s| && s[pos] == c && c !in s[pos + 1..])
    decreases |s|
  {
    if |s| == 0 then NPos
    else if s[|s| - 1] == c then |s| - 1
    else
      var p := FindLastOf(s[..|s| - 1], c);
      assert s == s[..|s| - 1] + [s[|s| - 1]];
      p
  }

  /** std::string::substr: at most count characters from position pos. */
  function SubStr(s: string, pos: nat, count: nat): (r: string)
    requires pos <= |s|
    ensures |r| <= count && pos + |r| <= |s| && r == s[pos..pos + |r|]
    ensures |r| == count || pos + |r| == |s|
  {
    s[pos..if count < |s| - pos then pos + count else |s|]
  }

  /** Where a target's name starts: one past the last '/', in size_t
      arithmetic, so npos + 1 wraps to 0. */
  function NameStart(path: string): (pos: nat)
    ensures pos <= |path|
    ensures '/' !in path ==> pos == 0
    ensures '/' in path && |path| < NPos ==> pos == FindLastOf(path, '/') + 1 && path[pos - 1] == '/' && '/' !in path[pos..]
  {
    (FindLastOf(path, '/') + 1) % SizeModulus
  }

  /** The name given to the target enrolled from an image path, computed in
      size_t arithmetic: the text after the last '/' less its last four
      characters. */
  function TargetName(path: string): (name: string)
    ensures |name| <= |path|
    ensures |path| < NPos ==> '/' !in name
  {
    var pos := NameStart(path);
    var name := SubStr(path, pos, WrappedCount(|path| - pos));
    if |path| < NPos then SliceHasNoSlash(path, pos, name); name else name
  }

  lemma SliceHasNoSlash(path: string, pos: nat, name: string)
    requires |path| < NPos && pos == NameStart(path)
    requires pos + |name| <= |path| && name == path[pos..pos + |name|]
    ensures '/' !in name
  {
    var p := FindLastOf(path, '/');
    if p != NPos {
      assert pos == p + 1;
      assert path[pos..pos + |name|] == path[pos..][..|name|];
    } else {
      assert path[pos..pos + |name|] == path[..|name|];
    }
  }

  /** base is the final component of path: a suffix without '/' that is the
      whole path or follows a '/'. */
  ghost predicate IsBasename(path: string, base: string) {
    && |base| <= |path|
    && path[|path| - |base|..] == base
    && '/' !in base
    && (|base| == |path| || path[|path| - |base| - 1] == '/')
  }

  /** A file name without its last four characters (a dot and a three-letter
      extension); a name shorter than that is kept whole. */
  function DropExtension(base: string): string {
    if |base| >= 4 then base[..|base| - 4] else base
  }

  lemma {:induction false} EveryPathHasABasename(path: string)
    ensures exists base :: IsBasename(path, base)
  {
    var p := FindLastOf(path, '/');
    if p == NPos && '/' !in path {
      assert path[|path| - |path|..] == path;
      assert IsBasename(path, path);
    } else {
      assert IsBasename(path, path[p + 1..]);
    }
  }

  /** Where the last '/' of a path is, given its final component. */
  lemma FindLastSlash(path: string, base: string)
    requires IsBasename(path, base)
    ensures |base| == |path| ==> FindLastOf(path, '/') == NPos
    ensures |base| < |path| ==> FindLastOf(path, '/') == |path| - |base| - 1
  {
    var p := FindLastOf(path, '/');
    var k := |path| - |base|;
    if |base| == |path| {
      assert path == base;
    } else {
      assert path[k - 1] == '/';
      assert 0 <= p < |path| && path[p] == '/' && '/' !in path[p + 1..];
      var lo := if p + 1 < k - 1 then p + 1 else k - 1;
      InSuffix(path, lo, k - 1);
      var hi := if p < k then k else p;
      if k < |path| {
        InSuffix(path, k, hi);
        assert path[k..] == base;
      }
    }
  }

  /** A character of a string occurs in every suffix that starts at or
      before it. */
  lemma InSuffix(s: string, i: nat, j: nat)
    requires i <= j < |s|
    ensures s[j] in s[i..]
  {
    assert s[i..][j - i] == s[j];
  }

  /** The name of a target is the final component of its path with the
      last four characters removed, or the whole final component when it has
      fewer than four; without any '/' the final component is the whole path. */
  lemma TargetNameDropsExtension(path: string, base: string)
    requires |path| < NPos
    requires IsBasename(path, base)
    ensures TargetName(path) == DropExtension(base)
  {
    var k := |path| - |base|;
    NameStartsAfterLastSlash(path, base);
    var count := WrappedCount(|base|);
    assert TargetName(path) == SubStr(path, k, count);
    assert path[k..] == base;
    if |base| >= 4 {
      assert SubStr(path, k, count) == base[..|base| - 4];
    } else {
      assert SubStr(path, k, count) == base;
    }
  }

  /** The size_t count of characters kept from a final component of length
      n: n - 4, wrapped to a huge value when n is below 4. */
  function WrappedCount(n: nat): (count: nat)
    ensures 4 <= n < SizeModulus + 4 ==> count == n - 4
    ensures n < 4 ==> count == SizeModulus + n - 4
  {
    (n - 4) % SizeModulus
  }

  /** The name starts right after the last '/', at the final component. */
  lemma NameStartsAfterLastSlash(path: string, base: string)
    requires |path| < NPos
    requires IsBasename(path, base)
    ensures NameStart(path) == |path| - |base|
  {
    FindLastSlash(path, base);
    if |base| == |path| {
      assert FindLastOf(path, '/') + 1 == SizeModulus;
    } else {
      assert FindLastOf(path, '/') + 1 == |path| - |base| < SizeModulus;
    }
  }

  /** A path without '/' is named from its first character on. */
  lemma NameOfPlainFileName(path: string)
    requires 4 <= |path| < NPos && '/' !in path
    ensures TargetName(path) == path[..|path| - 4]
  {
    assert path[|path| - |path|..] == path;
    TargetNameDropsExtension(path, path);
  }

  /** What one enrollment image contributes: nothing when no face is found,
      otherwise its name and the feature of the first face, detected with
      the default cap of one face. */
  function EnrollOne(path: string, imread: string -> Image, model: DetectorModel, recognizer: Recognizer): (r: seq<TargetData>)
    ensures |r| <= 1
    ensures r == [] <==> |Detection(model, recognizer, imread(path), 1).faces| == 0
    ensures r != [] ==> r[0].name == TargetName(path)
  {
    var detectResult := Detection(model, recognizer, imread(path), 1);
    if |detectResult.faces| == 0 then []
    else [TargetData(TargetName(path), detectResult.features[0])]
  }

  /** The gallery built from the enrollment images, in path order. */
  function Enroll(paths: seq<string>, imread: string -> Image, model: DetectorModel, recognizer: Recognizer): (r: seq<TargetData>)
    ensures |r| <= |paths|
    decreases |paths|
  {
    if paths == [] then []
    else Enroll(paths[..|paths| - 1], imread, model, recognizer) + EnrollOne(paths[|paths| - 1], imread, model, recognizer)
  }

  /** Enrollment treats images independently and keeps their order. */
  lemma {:induction false} EnrollConcat(a: seq<string>, b: seq<string>, imread: string -> Image, model: DetectorModel, recognizer: Recognizer)
    ensures Enroll(a + b, imread, model, recognizer) == Enroll(a, imread, model, recognizer) + Enroll(b, imread, model, recognizer)
    decreases |b|
  {
    if b == [] {
      assert a + b == a;
    } else {
      var b' := b[..|b| - 1];
      assert (a + b)[..|a + b| - 1] == a + b';
      assert (a + b)[|a + b| - 1] == b[|b| - 1];
      EnrollConcat(a, b', imread, model, recognizer);
    }
  }

  /** Each target comes from an image in which a face was found, named after
      that image with its first face. */
  lemma {:induction false} EnrollEntriesComeFromFaces(paths: seq<string>, imread: string -> Image, model: DetectorModel, recognizer: Recognizer)
    ensures forall t :: t in Enroll(paths, imread, model, recognizer) ==>
              exists i :: 0 <= i < |paths| && EnrollOne(paths[i], imread, model, recognizer) == [t]
    decreases |paths|
  {
    if paths != [] {
      var prefix := paths[..|paths| - 1];
      EnrollEntriesComeFromFaces(prefix, imread, model, recognizer);
      forall t | t in Enroll(paths, imread, model, recognizer)
        ensures exists i :: 0 <= i < |paths| && EnrollOne(paths[i], imread, model, recognizer) == [t]
      {
        if t in Enroll(prefix, imread, model, recognizer) {
          var i :| 0 <= i < |prefix| && EnrollOne(prefix[i], imread, model, recognizer) == [t];
          assert paths[i] == prefix[i];
        } else {
          assert EnrollOne(paths[|paths| - 1], imread, model, recognizer) == [t];
        }
      }
    }
  }

  /** When a face is found in every image, every image gives exactly one
      target, at its own position. */
  lemma {:induction false} EnrollKeepsEveryImageWithAFace(paths: seq<string>, imread: string -> Image, model: DetectorModel, recognizer: Recognizer)
    requires forall i :: 0 <= i < |paths| ==> |Detection(model, recognizer, imread(paths[i]), 1).faces| > 0
    ensures |Enroll(paths, imread, model, recognizer)| == |paths|
    ensures forall i :: 0 <= i < |paths| ==>
              Enroll(paths, imread, model, recognizer)[i] == TargetData(TargetName(paths[i]), Detection(model, recognizer, imread(paths[i]), 1).features[0])
    decreases |paths|
  {
    if paths != [] {
      var n := |paths|;
      var prefix := paths[..n - 1];
      assert forall i :: 0 <= i < |prefix| ==> prefix[i] == paths[i];
      EnrollKeepsEveryImageWithAFace(prefix, imread, model, recognizer);
      var before := Enroll(prefix, imread, model, recognizer);
      var last := EnrollOne(paths[n - 1], imread, model, recognizer);
      var all := Enroll(paths, imread, model, recognizer);
      assert all == before + last;
      forall i | 0 <= i < n
        ensures all[i] == TargetData(TargetName(paths[i]), Detection(model, recognizer, imread(paths[i]), 1).features[0])
      {
        if i < n - 1 {
          assert all[i] == before[i];
        } else {
          assert all[i] == last[0];
        }
      }
    }
  }

  /** Images in which no face is found add nothing. */
  lemma {:induction false} EnrollSkipsFacelessImages(paths: seq<string>, imread: string -> Image, model: DetectorModel, recognizer: Recognizer)
    requires forall i :: 0 <= i < |paths| ==> |Detection(model, recognizer, imread(paths[i]), 1).faces| == 0
    ensures Enroll(paths, imread, model, recognizer) == []
    decreases |paths|
  {
    if paths != [] {
      var prefix := paths[..|paths| - 1];
      assert forall i :: 0 <= i < |prefix| ==> prefix[i] == paths[i];
      EnrollSkipsFacelessImages(prefix, imread, model, recognizer);
    }
  }

  /** The folder of enrollment images: the data folder and the configured
      folder name, concatenated. */
  function TargetsDirPath(reader: ConfigReader, fs: FileSystem, dataDir: string): (path: string)
    reads reader
    ensures path == dataDir + reader.ReadData(fs, KConfigName, "targets_dir_name", StringValue("targets")).s
    ensures Open(fs, reader.FilePath(KConfigName)).None? ==> path == dataDir + "targets"
  {
    var name := GetConfigData(reader, fs, "targets_dir_name", StringType);
    dataDir + name.value.s
  }

  /** Enrolls one image: names it after its path, detects its faces with the
      default cap of one face and keeps the first face's feature, if any. */
  method EnrollImage(targetPath: string, imread: string -> Image, detector: Detector)
    returns (entries: seq<TargetData>)
    modifies detector.yunet
    ensures entries == EnrollOne(targetPath, imread, detector.yunet.model, detector.sface.recognizer)
    ensures detector.yunet.topK == 1 && detector.yunet.inputSize == imread(targetPath).size
  {
    var filename := TargetName(targetPath);
    var targetImage := imread(targetPath);
    var detectResult := detector.DetectFace(targetImage);
    if |detectResult.faces| == 0 {
      entries := [];
    } else {
      entries := [TargetData(filename, detectResult.features[0])];
    }
  }

  /** Enrolling one more path of a list adds what that path contributes. */
  lemma EnrollPrefixStep(paths: seq<string>, i: nat, imread: string -> Image, model: DetectorModel, recognizer: Recognizer)
    requires i < |paths|
    ensures Enroll(paths[..i + 1], imread, model, recognizer)
         == Enroll(paths[..i], imread, model, recognizer) + EnrollOne(paths[i], imread, model, recognizer)
  {
    assert paths[..i + 1][..i] == paths[..i];
  }

  /** Enrolls a list of images in order. Afterwards the shared detector
      keeps the settings of the last image. */
  method EnrollAll(targetsPath: seq<string>, imread: string -> Image, detector: Detector)
    returns (r: seq<TargetData>)
    modifies detector.yunet
    ensures r == Enroll(targetsPath, imread, detector.yunet.model, detector.sface.recognizer)
    ensures |targetsPath| > 0 ==>
              detector.yunet.topK == 1 && detector.yunet.inputSize == imread(targetsPath[|targetsPath| - 1]).size
    ensures targetsPath == [] ==>
              detector.yunet.topK == old(detector.yunet.topK) && detector.yunet.inputSize == old(detector.yunet.inputSize)
  {
    var yunet := detector.yunet;
    var model, recognizer := yunet.model, detector.sface.recognizer;
    r := [];
    for i := 0 to |targetsPath|
      invariant r == Enroll(targetsPath[..i], imread, model, recognizer)
      invariant i > 0 ==> yunet.topK == 1 && yunet.inputSize == imread(targetsPath[i - 1]).size
      invariant i == 0 ==> yunet.topK == old(yunet.topK) && yunet.inputSize == old(yunet.inputSize)
    {
      var entries := EnrollImage(targetsPath[i], imread, detector);
      EnrollPrefixStep(targetsPath, i, imread, model, recognizer);
      r := r + entries;
    }
    assert targetsPath[..|targetsPath|] == targetsPath;
  }

  /** Builds the gallery from the files listed in the configured targets
      folder. */
  method GetAllTargetData(reader: ConfigReader, fs: FileSystem, dataDir: string,
                          glob: string -> seq<string>, imread: string -> Image, detector: Detector)
    returns (r: seq<TargetData>)
    modifies detector.yunet
    ensures r == Enroll(glob(old(TargetsDirPath(reader, fs, dataDir))), imread, detector.yunet.model, detector.sface.recognizer)
    ensures var paths := glob(old(TargetsDirPath(reader, fs, dataDir)));
            |paths| > 0 ==> detector.yunet.topK == 1 && detector.yunet.inputSize == imread(paths[|paths| - 1]).size
    ensures glob(old(TargetsDirPath(reader, fs, dataDir))) == [] ==>
              detector.yunet.topK == old(detector.yunet.topK) && detector.yunet.inputSize == old(detector.yunet.inputSize)
  {
    var targetsPath := glob(TargetsDirPath(reader, fs, dataDir));
    r := EnrollAll(targetsPath, imread, detector);
  }

  /** The (backend, target) pair selected by the configured index; an index
      outside the table throws. */
  function ConfiguredBackendTarget(reader: ConfigReader, fs: FileSystem): (r: Result<(Backend, Target), Exception>)
    reads reader
    ensures var index := reader.ReadData(fs, KConfigName, "backend_target", IntValue(0)).i;
            (r.Success? <==> 0 <= index < |BackendTargetPairs|) &&
            (r.Success? ==> r.value == BackendTargetPairs[index])
    ensures r.Failure? ==> r.error == OutOfRange
  {
    var backendTarget := GetConfigData(reader, fs, "backend_target", IntType);
    BackendTargetAt(backendTarget.value.i)
  }

  /** Without a readable configuration file the OpenCV backend on the CPU is
      selected; an opened file that stores an index outside 0 to 4 makes the
      selection throw. */
  lemma BackendSelection(reader: ConfigReader, fs: FileSystem)
    ensures Open(fs, reader.FilePath(KConfigName)).None? ==>
              ConfiguredBackendTarget(reader, fs) == Success((DnnBackendOpenCV, DnnTargetCpu))
    ensures Open(fs, reader.FilePath(KConfigName)).Some? ==>
              var index := Lookup(Open(fs, reader.FilePath(KConfigName)).value, "backend_target").asInt;
              (ConfiguredBackendTarget(reader, fs).Success? <==> 0 <= index < 5) &&
              (0 <= index < 5 ==> ConfiguredBackendTarget(reader, fs) == Success(BackendTargetPairs[index]))
  {
  }
}
