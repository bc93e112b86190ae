/** The table of configuration keys with their typed defaults, and the typed
    lookup that reads a key from the configuration file with the table's
    default. */
module Config {
  import opened Wrappers
  import opened ConfigReading

  /** The configuration file every lookup reads. */
  const KConfigName: string := "val.yml"

  /** Every recognised key with its default value; the value's tag is the
      type stored in the table. */
  const KConfigMap: map<string, ConfigValue> := map[
    "debug" := IntValue(1),
    "cap_or_video" := IntValue(0),
    "cap_index" := IntValue(0),
    "video_name" := StringValue("face_test.mp4"),
    "zoom" := FloatValue(1.0),
    "backend_target" := IntValue(0),
    "detection_onnx" := StringValue("face_detection_yunet_2023mar.onnx"),
    "sface_onnx" := StringValue("face_recognition_sface_2021dec.onnx"),
    "detect_threshold" := FloatValue(0.8),
    "nms_threshold" := FloatValue(0.3),
    "top_k" := IntValue(5000),
    "distance_type" := IntValue(0),
    "cosine_threshold" := FloatValue(0.363),
    "norml2_threshold" := FloatValue(1.128),
    "targets_dir_name" := StringValue("targets"),
    "draw_face_points" := BoolValue(true)
  ]

  /** The keys of the table. */
  lemma KConfigMapKeys()
    ensures KConfigMap.Keys == {
      "debug", "cap_or_video", "cap_index", "video_name", "zoom", "backend_target",
      "detection_onnx", "sface_onnx", "detect_threshold", "nms_threshold", "top_k",
      "distance_type", "cosine_threshold", "norml2_threshold", "targets_dir_name", "draw_face_points"}
  {
  }

  /** The type stored under some of the keys. */
  lemma KConfigMapTypes()
    ensures KConfigMap["debug"].Type() == IntType && KConfigMap["draw_face_points"].Type() == BoolType
    ensures KConfigMap["zoom"].Type() == FloatType && KConfigMap["targets_dir_name"].Type() == StringType
  {
  }

  /** A dynamically typed value that may be empty. */
  type ConfigBasicType = Option<ConfigValue>

  /** Casting a dynamically typed value to a type: the stored value when its
      type is exactly the requested one, the zero of the type when the value
      is empty, and a bad cast otherwise. */
  function ConfigBasicTypeToRaw(data: ConfigBasicType, t: ConfigType): (r: Result<ConfigValue, Exception>)
    ensures data.None? ==> r == Success(ZeroValue(t))
    ensures data.Some? && data.value.Type() == t ==> r == Success(data.value)
    ensures data.Some? && data.value.Type() != t ==> r == Failure(BadAnyCast)
  {
    match data
    case None => Success(ZeroValue(t))
    case Some(v) => if v.Type() == t then Success(v) else Failure(BadAnyCast)
  }

  /** Looks a key up in the table, casts its default to the requested type
      and reads the key from the configuration file with that default. */
  function GetConfigData(reader: ConfigReader, fs: FileSystem, dataName: string, t: ConfigType): (r: Result<ConfigValue, Exception>)
    reads reader
    ensures dataName !in KConfigMap ==> r == Failure(OutOfRange)
    ensures dataName in KConfigMap && KConfigMap[dataName].Type() != t ==> r == Failure(BadAnyCast)
    ensures r.Success? <==> dataName in KConfigMap && KConfigMap[dataName].Type() == t
    ensures r.Success? ==> r.value.Type() == t
    ensures r.Success? ==> r.value == reader.ReadData(fs, KConfigName, dataName, KConfigMap[dataName])
  {
    if dataName !in KConfigMap then Failure(OutOfRange)
    else match ConfigBasicTypeToRaw(Some(KConfigMap[dataName]), t)
      case Failure(e) => Failure(e)
      case Success(raw) => Success(reader.ReadData(fs, KConfigName, dataName, raw))
  }

  /** Without a readable configuration file every key of the table reads as
      its table default. */
  lemma MissingFileGivesTableDefaults(reader: ConfigReader, fs: FileSystem, dataName: string)
    requires dataName in KConfigMap
    requires Open(fs, reader.FilePath(KConfigName)).None?
    ensures GetConfigData(reader, fs, dataName, KConfigMap[dataName].Type()) == Success(KConfigMap[dataName])
  {
  }

  /** The keys the application reads, each with the type it reads it as. */
  const ApplicationReads: seq<(string, ConfigType)> := [
    ("detection_onnx", StringType), ("detect_threshold", FloatType), ("nms_threshold", FloatType),
    ("top_k", IntType), ("backend_target", IntType), ("sface_onnx", StringType),
    ("distance_type", IntType), ("cosine_threshold", FloatType), ("norml2_threshold", FloatType),
    ("targets_dir_name", StringType), ("cap_or_video", IntType), ("cap_index", IntType),
    ("video_name", StringType), ("debug", IntType), ("zoom", FloatType), ("draw_face_points", BoolType)
  ]

  /** Every lookup the application makes names a key of the table with the
      type stored there, so none of them can throw, whatever the file says. */
  lemma ApplicationReadsAreWellTyped(reader: ConfigReader, fs: FileSystem)
    ensures forall i :: 0 <= i < |ApplicationReads| ==>
              GetConfigData(reader, fs, ApplicationReads[i].0, ApplicationReads[i].1).Success?
  {
    forall i | 0 <= i < |ApplicationReads|
      ensures GetConfigData(reader, fs, ApplicationReads[i].0, ApplicationReads[i].1).Success?
    {
      var (key, t) := ApplicationReads[i];
      assert key in KConfigMap && KConfigMap[key].Type() == t;
    }
  }

  /** A bool key of an opened configuration file is read through the bool
      decoder: a true spelling reads true and a false spelling reads false,
      whatever the table default. */
  lemma BoolKeysUseSpellings(reader: ConfigReader, fs: FileSystem, dataName: string)
    requires dataName in KConfigMap && KConfigMap[dataName].Type() == BoolType
    requires Open(fs, reader.FilePath(KConfigName)).Some?
    ensures var node := Lookup(Open(fs, reader.FilePath(KConfigName)).value, dataName);
            && (node.asString in TrueSpellings ==> GetConfigData(reader, fs, dataName, BoolType) == Success(BoolValue(true)))
            && (node.asString in FalseSpellings ==> GetConfigData(reader, fs, dataName, BoolType) == Success(BoolValue(false)))
            && (node.asString !in TrueSpellings && node.asString !in FalseSpellings ==>
                  GetConfigData(reader, fs, dataName, BoolType) == Success(BoolValue(node.asInt != 0)))
  {
  }

  /** "draw_face_points: off" turns the landmarks off although the table
      default is on. */
  lemma DrawFacePointsOff(reader: ConfigReader, fs: FileSystem, n: int)
    requires Open(fs, reader.FilePath(KConfigName)).Some?
    requires Lookup(Open(fs, reader.FilePath(KConfigName)).value, "draw_face_points") == FileNode("off", n, 0.0)
    ensures KConfigMap["draw_face_points"] == BoolValue(true)
    ensures GetConfigData(reader, fs, "draw_face_points", BoolType) == Success(BoolValue(false))
  {
    BoolKeysUseSpellings(reader, fs, "draw_face_points");
  }

  /** Reading the debug flag as a bool is a bad cast: the table stores an int. */
  lemma DebugIsNotABool(reader: ConfigReader, fs: FileSystem)
    ensures GetConfigData(reader, fs, "debug", BoolType) == Failure(BadAnyCast)
  {
  }
}
