# Face recognition matcher and configuration reader, in Dafny

This project models the decision logic of a live face recognition program. The program detects faces with YuNet, extracts an SFace feature per face, and names each face after the best-scoring entry of a gallery of enrolled targets. Its settings come from a YAML file that is re-read when its timestamp changes. The model covers:

- **Gallery** (`FaceDetector.Detector`): a sequence of named reference features. Entries are appended one at a time or as a batch, and the whole gallery can be cleared.
- **Matcher** (`FaceDetector.MatchFace`, `Detector.MatchTargetFace`): a linear scan per detected face. A running best starts at the record `"?"`, 0, false. An entry replaces it only when its score is strictly greater, and the winner's own accept flag is kept.
- **Recogniser decision** (`SFace.MatchFeatures`): the score passes when it is at least the cosine threshold (cosine distance type) or at most the L2 threshold (any other type). The thresholds default to 0.363 and 1.128.
- **Detection pairing** (`Detector.DetectFace`): configures the detector with the image size and a face cap (1 by default), then extracts one feature per detected row.
- **Configuration**:
  - the bool decoder over 22 fixed spellings (`ReadBool`);
  - the guarded update of the configuration folder (`SetConfigPath`);
  - reading one key with a fallback to the caller's default (`ReadData`);
  - the hot-update registration and its per-poll timestamp check (`RegisterHotUpdate`, `HotUpdateWatch.Poll`, `PollStep`);
  - the table of 16 typed defaults and the typed lookup (`KConfigMap`, `GetConfigData`).
- **Enrollment** (`Application`):
  - target names computed in 64-bit `size_t` arithmetic (`TargetName`);
  - building the gallery from the enrollment images, keeping the first face of each image that has one and skipping the others (`Enroll`, `GetAllTargetData`);
  - selecting the inference backend by index (`ConfiguredBackendTarget`).

The OpenCV models are parameters. A `Recognizer` holds an uninterpreted score function `score(target, query, distanceType): real` and a feature extractor. A `DetectorModel` holds an uninterpreted detection function. The filesystem is a map from paths to directories and files. A file has a timestamp and, when `cv::FileStorage` can open it, its top-level keys. A YAML node is given by what its string, int and real casts return; a missing key reads as the empty node `("", 0, 0.0)`.

Three consequences of the code as written are worth knowing:

- The gallery scan uses "greater score wins" for both distance types, as `src/detector.cpp:91` does. The code has no direction-aware comparison, so for the L2 distance the *farthest* entry is kept. An identical feature (distance 0) can never win (`NonPositiveScoresNeverWin`), and one entry farther than the L2 threshold forces a reject (`L2FarEntryForcesReject`).
- When the watched file cannot be stat'ed during a poll, `std::filesystem::last_write_time` at include/config_reader.hpp:101 or :104 throws. The exception escapes the detached `std::thread`'s function, so `std::terminate` ends the whole process, frame loop included. The model represents this as the `ReadFailed` poll outcome, after which no further poll happens (`RunWatch`, `Reloads`, `StoredTime`).
- Settings are not published as one snapshot. The hot-update callback re-reads four keys into separate variables (out of scope, see below).

## Model

| member | source | states |
|---|---|---|
| DetectorTypes.DefaultMatchData | include/detector.hpp:141-146 | a default match record has name "?", an empty face, confidence 0 and no match |
| DetectorTypes.BackendTargetTable | include/detector.hpp:16-21 | the backend table has exactly 5 entries, entry 0 is (OpenCV backend, CPU target), and the NPU target appears only at indices 3 and 4 |
| DetectorTypes.BackendTargetAt | src/main.cpp:18-19 | indexing the backend table succeeds exactly for indices 0 to 4, where index i gives entry i of the table, and otherwise throws out_of_range |
| FaceDetector.YuNet.constructor | include/detector.hpp:29-36 | a detector wrapper keeps its model handle, input size and face cap |
| FaceDetector.YuNet.SetInputSize | src/detector.cpp:3-6 | sets the input size and leaves the face cap unchanged |
| FaceDetector.YuNet.SetTopK | src/detector.cpp:7-10 | sets the face cap and leaves the input size unchanged |
| FaceDetector.YuNet.Infer | src/detector.cpp:12-16 | the rows the detector model finds in the image under the wrapper's current input size and face cap |
| FaceDetector.SFace.constructor | include/detector.hpp:115-116 | a new recogniser has cosine threshold 0.363 and L2 threshold 1.128 and keeps its distance type |
| FaceDetector.SFace.SetThresholdCosine | src/detector.cpp:18-21 | overwrites the cosine threshold only; the L2 threshold is unchanged |
| FaceDetector.SFace.SetThresholdNorml2 | src/detector.cpp:23-26 | overwrites the L2 threshold only; the cosine threshold is unchanged |
| FaceDetector.SFace.ExtractFeatures | src/detector.cpp:28-37 | the feature the recogniser extracts after aligning and cropping the given face row of the original image |
| FaceDetector.SFace.MatchFeatures | src/detector.cpp:39-47 | returns the recogniser's score unchanged; for the cosine type it accepts iff score >= cosine threshold, for any other type iff score <= L2 threshold |
| FaceDetector.Consider | src/detector.cpp:89-95 | one scan step: an entry whose score is at most the running confidence leaves the record unchanged; a strictly greater score takes over confidence, name and that entry's own accept flag; the face row never changes |
| FaceDetector.MatchFace | src/detector.cpp:86-96 | the record of one face after scanning the gallery in order from "?", 0, false: it keeps the face row, its confidence is never negative, a confidence of 0 means the face is unmatched, and a positive confidence is the score of a gallery entry whose name is reported |
| FaceDetector.MatchFaceSelectsFirstMaximum | src/detector.cpp:86-96 | after the scan the confidence is the maximum of 0 and all scores and the face is the detected row; if no score is positive the record is "?", 0, false; otherwise the winner is the first entry with the maximal score, whose name and accept flag are reported |
| FaceDetector.EmptyGalleryLeavesUnmatched | src/detector.cpp:86-97 | with an empty gallery a face is reported as "?", confidence 0, no match |
| FaceDetector.NonPositiveScoresNeverWin | src/detector.cpp:91-92 | when no entry scores above 0, for example an identical feature under L2 (distance 0), the face is reported as "?", 0, false |
| FaceDetector.L2FarEntryForcesReject | src/detector.cpp:89-95 | under the L2 type the greatest distance wins, so a single entry farther than the L2 threshold makes the face rejected |
| FaceDetector.TieKeepsEarlierEntry | src/detector.cpp:91-92 | of two entries with equal positive scores the earlier one is kept, with its own accept flag |
| FaceDetector.Detection | src/detector.cpp:68-80 | the rows detected with the image's own size and the given cap, and exactly one feature per row, extracted from that row |
| FaceDetector.Detector.constructor | include/detector.hpp:157-160 | a new detector holds the two wrappers and an empty gallery |
| FaceDetector.Detector.AddTargetData | src/detector.cpp:50-53 | the gallery becomes the old gallery with one entry appended at the end |
| FaceDetector.Detector.AddTargetDatas | src/detector.cpp:56-60 | the gallery becomes the old gallery followed by the batch in input order, longer by the batch length; duplicate names coexist |
| FaceDetector.Detector.ClearTargetDatas | src/detector.cpp:62-65 | the gallery is empty |
| FaceDetector.Detector.DetectFace | src/detector.cpp:68-80 | sets the detector's input size to the image size and its cap to top_k (1 when omitted, as declared at include/detector.hpp:189), then returns the detection result, which has a feature for every face row (`DetectResult.Paired`, the requirement of include/detector.hpp:123-126) |
| FaceDetector.Detector.MatchTargetFace | src/detector.cpp:83-100 | given a feature for every face row (`DetectResult.Paired`), returns exactly one record per face row, in detection order, each the scan of the whole gallery for that face |
| FaceDetector.ClearThenMatch | src/detector.cpp:62-64 | after a clear every face of a match is reported as "?", 0, false |
| ConfigReading.ReadBool | src/config_reader.cpp:8-24 | the 11 true spellings give true, the 11 false spellings give false, any other string gives int value != 0, and the default argument is not used |
| ConfigReading.SpellingListsDisjoint | src/config_reader.cpp:11-22 | no spelling is in both lists |
| ConfigReading.ReadBoolIsCaseExact | src/config_reader.cpp:11-23 | other casings such as "tRUE" and "oFF" fall through to the int value; an empty node decodes to false even when the default is true |
| ConfigReading.Decode | include/config_reader.hpp:29-31 | decoding a node gives a value of the requested type: a bool is read through the bool decoder with default false (`operator>>` for bool), an int, float or string through the node's own cast; the empty node of a missing key gives the zero of the type |
| Config.BoolKeysUseSpellings | include/config_reader.hpp:74-75 | a bool key of an opened configuration file reads true for a true spelling and false for a false spelling, and otherwise its int value != 0, whatever the table default |
| Config.DrawFacePointsOff | include/config.hpp:31 | "draw_face_points: off" in an opened file reads false although the table default is true |
| ConfigReading.ConfigReader.constructor | include/config_reader.hpp:113 | a reader starts from the build-time configuration folder |
| ConfigReading.ConfigReader.SetConfigPath | src/config_reader.cpp:27-42 | the folder becomes dir_path iff that path exists and is a directory; otherwise it is unchanged |
| ConfigReading.ConfigReader.FilePath | include/config_reader.hpp:59 | the file path is the folder followed directly by the file name, with no separator inserted |
| ConfigReading.ConfigReader.ReadData | include/config_reader.hpp:56-78 | the result has the default's type; a missing or unopenable file gives the default; an opened file gives the decoded node of the key |
| ConfigReading.ReadDataIgnoresDefaultWhenOpened | include/config_reader.hpp:74-77 | once the file opens, two defaults of the same type read the same value, whether or not the key is present |
| ConfigReading.MissingKeyReadsZero | include/config_reader.hpp:74-77 | a key missing from an opened file reads as the zero of its type, not as the default |
| ConfigReading.ConfigReader.ReadDataText | include/config_reader.hpp:125-130 | reading with a C string default equals reading with the string built from it |
| ConfigReading.ConfigReader.RegisterHotUpdate | include/config_reader.hpp:90-109 | returns true iff the watched file exists; only then does it start a fresh worker on that path at the given rate (10 when omitted), seeded with the file's current timestamp |
| ConfigReading.PollStep | include/config_reader.hpp:101-105 | the callback fires iff the timestamp differs from the stored one and the re-read succeeds; the stored timestamp becomes the re-read one after a reload and is unchanged otherwise |
| ConfigReading.HotUpdateWatch.constructor | include/config_reader.hpp:96-97 | a worker stores its path, its rate and the starting timestamp |
| ConfigReading.HotUpdateWatch.Poll | include/config_reader.hpp:101-105 | one poll updates the worker's stored timestamp as the poll step says and reports whether the callback ran |
| ConfigReading.ReloadFiresOncePerChange | include/config_reader.hpp:101-105 | a change fires once; polling the same timestamp again does not fire again |
| ConfigReading.Reloads | include/config_reader.hpp:98-106 | the number of callbacks over a run of polls, which stops at the first timestamp that cannot be read; never more than the number of polls |
| ConfigReading.StoredTime | include/config_reader.hpp:98-106 | the timestamp the worker holds after a run of polls is the starting one or a timestamp re-read during the run |
| ConfigReading.ChangeThenQuietStoresNewTime | include/config_reader.hpp:101-105 | one change followed by any number of polls of the same timestamp fires the callback once and leaves the new timestamp stored |
| ConfigReading.RunWatch | include/config_reader.hpp:98-106 | the worker loop over a run of observations fires the callback as often as the poll steps say, stops at the first timestamp it cannot read, and leaves the worker holding the timestamp the poll steps store |
| ConfigReading.UntouchedFileNeverReloads | include/config_reader.hpp:98-106 | if every observed timestamp equals the stored one, no callback runs |
| ConfigReading.PollIntervalMs | include/config_reader.hpp:99-100 | for fps > 0 the sleep is the integer quotient of 1000 by fps (ms * fps <= 1000 < (ms + 1) * fps) |
| ConfigReading.DefaultPollInterval | include/config_reader.hpp:92-100 | the default rate of 10 gives a 100 ms sleep |
| Config.KConfigMapKeys | include/config.hpp:15-32 | the table's keys are exactly the 16 listed ones |
| Config.KConfigMapTypes | include/config.hpp:15-32 | debug is an int, zoom a float, targets_dir_name a string and draw_face_points a bool |
| Config.ConfigBasicTypeToRaw | include/config.hpp:42-48 | an empty value casts to the zero of the type; a stored value casts to itself when its type is exactly the requested one, and otherwise the cast throws bad_any_cast |
| Config.GetConfigData | include/config.hpp:58-62 | a key absent from the table throws out_of_range; a type other than the stored one throws bad_any_cast; otherwise it reads the key from "val.yml" with the table default |
| Config.MissingFileGivesTableDefaults | include/config.hpp:58-62 | without an openable configuration file every key reads as its table default |
| Config.ApplicationReadsAreWellTyped | src/main.cpp:11-107 | every typed lookup the application makes succeeds, whatever the file holds |
| Config.DebugIsNotABool | include/config.hpp:42-48 | reading debug as a bool throws bad_any_cast, because the table stores an int |
| Application.FindLastOf | src/main.cpp:61 | the index of the last '/' and no '/' after it, or npos when there is none |
| Application.SubStr | src/main.cpp:62-63 | substr returns at most count characters from pos, clamped at the end of the string |
| Application.NameStart | src/main.cpp:61 | the name starts right after the last '/', with no '/' from there on; with no '/' in the path the wrapped npos + 1 makes it start at 0 |
| Application.WrappedCount | src/main.cpp:62-63 | the size_t count length - pos - 4 is the final component's length less 4, or that length less 4 plus 2^64 when the component is shorter than 4 |
| Application.TargetName | src/main.cpp:61-63 | a target's name is no longer than its path and, for any path shorter than npos, contains no '/' |
| Application.EveryPathHasABasename | src/main.cpp:61 | every path has a final component (a suffix without '/' that is the whole path or follows a '/'), so TargetNameDropsExtension applies to every path |
| Application.TargetNameDropsExtension | src/main.cpp:61-63 | a target's name is the final path component without its last 4 characters; a final component shorter than 4 characters (the wrapped size_t count) is used whole |
| Application.NameOfPlainFileName | src/main.cpp:61 | with no '/' in the path the wrapped npos + 1 is 0, so the name starts at index 0 |
| Application.EnrollOne | src/main.cpp:64-69 | one image contributes nothing exactly when detection with a cap of one face finds no face, and otherwise a single entry named after its path |
| Application.Enroll | src/main.cpp:60-70 | the enrollment of a list of images in path order, no longer than the list |
| Application.EnrollConcat | src/main.cpp:60-70 | enrolling two lists of paths gives the concatenation of their results, so the output follows path order |
| Application.EnrollEntriesComeFromFaces | src/main.cpp:64-69 | the output is no longer than the path list, and each entry is the (name, first feature) of an image in which a face was found |
| Application.EnrollKeepsEveryImageWithAFace | src/main.cpp:64-69 | when every image has a face, entry i is image i's name with the feature of its first face |
| Application.EnrollSkipsFacelessImages | src/main.cpp:66-67 | images with no face contribute nothing |
| Application.TargetsDirPath | src/main.cpp:57-58 | the targets folder is the data folder followed by the configured targets_dir_name, and "targets" without a readable configuration file |
| Application.EnrollImage | src/main.cpp:61-69 | one loop iteration: its entries are EnrollOne of the path, and afterwards the shared detector has cap 1 and the image's size |
| Application.EnrollAll | src/main.cpp:60-70 | the loop over the listed paths returns Enroll of the list; afterwards the shared detector has cap 1 and the last image's size, or its old settings when the list is empty |
| Application.GetAllTargetData | src/main.cpp:53-72 | the result is the enrollment of the files listed in the configured targets folder, each detected with the default cap of one face; afterwards the shared detector has cap 1 and the last listed image's size, and is unchanged when the folder lists nothing |
| Application.ConfiguredBackendTarget | src/main.cpp:17-19 | the configured index i selects entry i of the backend table when 0 <= i < 5, and throws out_of_range otherwise |
| Application.BackendSelection | src/main.cpp:34-36 | without a readable file it selects (OpenCV, CPU); from an opened file it succeeds iff the stored index i is in 0 to 4, and then selects entry i |

## Left out

- The OpenCV models (`FaceDetectorYN::create/detect`, `FaceRecognizerSF::create/alignCrop/feature/match`) are foreign calls. They are uninterpreted function values, so nothing is claimed about the actual scores.
- The video capture, the resizing by `zoom`, `waitKey`, `imshow`, `TickMeter`, the frame loop of `main`, and the drawing in `visualize` / `DrawFacePoint` are I/O and UI.
- The worker thread of `registerHotUpdate` (its creation, `detach`, `sleep_for`, running concurrently with the frame loop) is concurrency. Likewise the callback in `main` that re-reads `debug`, `top_k`, `zoom` and `draw_face_points` through captured references. Only the poll step and a finite run of it are modelled. The worker's first timestamp read happens when the thread starts; the model takes it at registration.
- The real filesystem, `cv::glob`, `cv::imread` and YAML parsing are abstract: a path map, function parameters, and a node given by its three casts.
- Floating point is not modelled. Scores, thresholds and `zoom` are reals, and the double-to-float narrowing of `conf` at src/detector.cpp:93 is not reproduced.
- `std::any` is a tagged union, with a type mismatch as an explicit error value.
- `std::cerr` / `std::cout` diagnostics are left out. These are the warning for an enrollment image without a face and the messages of `setConfigPath` and `readData`.
- Detector.constructor: `cv::makePtr` copies the two wrappers into the detector, and the model holds the caller's objects instead. For `YuNet` this changes nothing: its copy shares the `cv::Ptr<cv::FaceDetectorYN>` (include/detector.hpp:61), so `setInputSize` / `setTopK` through either copy reconfigure the same detector, as in the model. For `SFace` the thresholds are plain members (include/detector.hpp:115-116), so in the code a later threshold change on the caller's copy does not reach the detector, while in the model it does.
- GetYuNet / GetSFace: only their backend-table lookups are modelled (`ConfiguredBackendTarget`). The model paths and the construction of the two wrappers from configured values are not.
- PollIntervalMs: fps = 0 is excluded by its precondition. In the code it would be a division by zero inside the worker.
