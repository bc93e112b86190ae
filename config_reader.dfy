/** The configuration reader: decoding of YAML nodes into the four value
    types, the reader's configuration folder, reading one key with a default,
    and the change detection of the hot-update watcher. */
module ConfigReading {
  import opened Wrappers

  /** A node of an opened configuration file, given by what its three casts
      return: to a string, to an int and to a real. Parsing YAML is not
      part of this model. */
  datatype FileNode = FileNode(asString: string, asInt: int, asReal: real)

  /** The node returned for a key the file does not contain: every cast
      yields the zero of its type. */
  const EmptyNode: FileNode := FileNode("", 0, 0.0)

  /** The contents of an opened configuration file: its top-level keys. */
  type Storage = map<string, FileNode>

  /** A filesystem entry: a directory, or a file with its last write time
      and its contents when cv::FileStorage can open it (None otherwise). */
  datatype Entry = Directory(mtime: int) | File(mtime: int, contents: Option<Storage>)

  /** The filesystem as the modelled code observes it, by path. */
  type FileSystem = map<string, Entry>

  predicate Exists(fs: FileSystem, path: string) {
    path in fs
  }

  predicate IsDirectory(fs: FileSystem, path: string) {
    path in fs && fs[path].Directory?
  }

  /** What cv::FileStorage reads from a path, if it can open it. */
  function Open(fs: FileSystem, path: string): Option<Storage> {
    if path in fs && fs[path].File? then fs[path].contents else None
  }

  /** The node stored under a key of an opened file. */
  function Lookup(storage: Storage, key: string): FileNode {
    if key in storage then storage[key] else EmptyNode
  }

  /** The spellings the bool decoder maps to true, and to false. */
  const TrueSpellings: set<string> := {"y", "Y", "yes", "Yes", "YES", "true", "True", "TRUE", "on", "On", "ON"}
  const FalseSpellings: set<string> := {"n", "N", "no", "No", "NO", "false", "False", "FALSE", "off", "Off", "OFF"}

  /** The bool decoder installed for configuration nodes: exact matches of
      the true and false spellings, and otherwise the node's int value
      compared with zero. The default value argument is never read. */
  function ReadBool(node: FileNode, defaultValue: bool): (value: bool)
    ensures node.asString in TrueSpellings ==> value
    ensures node.asString in FalseSpellings ==> !value
    ensures node.asString !in TrueSpellings && node.asString !in FalseSpellings ==> (value <==> node.asInt != 0)
  {
    var s := node.asString;
    if s == "y" || s == "Y" || s == "yes" || s == "Yes" || s == "YES" ||
       s == "true" || s == "True" || s == "TRUE" || s == "on" || s == "On" ||
       s == "ON" then
      true
    else if s == "n" || s == "N" || s == "no" || s == "No" || s == "NO" ||
            s == "false" || s == "False" || s == "FALSE" || s == "off" ||
            s == "Off" || s == "OFF" then
      false
    else
      node.asInt != 0
  }

  /** A test that separates the two lists: the first letter, and for the
      spellings that start with an o, the length. */
  predicate LooksTrue(s: string) {
    |s| > 0 && (s[0] in "yYtT" || (s[0] in "oO" && |s| == 2))
  }

  /** No spelling is in both lists. */
  lemma SpellingListsDisjoint()
    ensures TrueSpellings * FalseSpellings == {}
  {
    assert forall s :: s in TrueSpellings ==> LooksTrue(s);
    assert forall s :: s in FalseSpellings ==> !LooksTrue(s);
  }

  /** Matching is exact: other casings fall through to the int value, and
      the default argument has no influence. */
  lemma ReadBoolIsCaseExact(n: int, defaultValue: bool)
    ensures ReadBool(FileNode("tRUE", n, 0.0), defaultValue) == (n != 0)
    ensures ReadBool(FileNode("oFF", n, 0.0), defaultValue) == (n != 0)
    ensures ReadBool(FileNode("", 0, 0.0), true) == false
  {
  }

  /** The value types a configuration entry can have. */
  datatype ConfigType = IntType | FloatType | StringType | BoolType

  /** A configuration value, tagged with its type. */
  datatype ConfigValue = IntValue(i: int) | FloatValue(f: real) | StringValue(s: string) | BoolValue(b: bool)
  {
    function Type(): ConfigType {
      match this
      case IntValue(_) => IntType
      case FloatValue(_) => FloatType
      case StringValue(_) => StringType
      case BoolValue(_) => BoolType
    }
  }

  /** The value-initialised value of a type. */
  function ZeroValue(t: ConfigType): (v: ConfigValue)
    ensures v.Type() == t
  {
    match t
    case IntType => IntValue(0)
    case FloatType => FloatValue(0.0)
    case StringType => StringValue("")
    case BoolType => BoolValue(false)
  }

  /** Reading a node into a value of the given type: ints, reals and
      strings through the node's own casts, bools through the bool decoder
      with a false default. */
  function Decode(node: FileNode, t: ConfigType): (v: ConfigValue)
    ensures v.Type() == t
    ensures node == EmptyNode ==> v == ZeroValue(t)
    ensures t == BoolType ==> v == BoolValue(ReadBool(node, false))
    ensures t == IntType ==> v == IntValue(node.asInt)
    ensures t == FloatType ==> v == FloatValue(node.asReal)
    ensures t == StringType ==> v == StringValue(node.asString)
  {
    match t
    case IntType => IntValue(node.asInt)
    case FloatType => FloatValue(node.asReal)
    case StringType => StringValue(node.asString)
    case BoolType => BoolValue(ReadBool(node, false))
  }

  /** The outcome of one poll of the watched file's timestamp. */
  datatype PollOutcome =
    | Unchanged   // same timestamp: nothing happens
    | Reloaded    // timestamp changed: the callback runs
    | ReadFailed  // the timestamp could not be read: the worker throws

  /** One poll of the watcher: the observed timestamp now, and the one read
      again after a change was seen (None when the read fails). Returns the
      outcome and the stored timestamp afterwards. */
  function PollStep(lastTime: int, nowTime: Option<int>, rereadTime: Option<int>): (r: (PollOutcome, int))
    ensures r.0 == Reloaded <==> nowTime.Some? && nowTime.value != lastTime && rereadTime.Some?
    ensures r.0 == Unchanged <==> nowTime == Some(lastTime)
    ensures r.0 == Reloaded ==> r.1 == rereadTime.value
    ensures r.0 != Reloaded ==> r.1 == lastTime
  {
    match nowTime
    case None => (ReadFailed, lastTime)
    case Some(now) =>
      if now == lastTime then (Unchanged, lastTime)
      else match rereadTime
        case None => (ReadFailed, lastTime)
        case Some(t) => (Reloaded, t)
  }

  /** After a reload whose re-read saw the same timestamp, polling that
      timestamp again does not fire the callback a second time. */
  lemma ReloadFiresOncePerChange(lastTime: int, now: int)
    requires now != lastTime
    ensures PollStep(lastTime, Some(now), Some(now)) == (Reloaded, now)
    ensures PollStep(PollStep(lastTime, Some(now), Some(now)).1, Some(now), Some(now)).0 == Unchanged
  {
  }

  /** A run of polls over a sequence of observations, each observation the
      timestamp read now and the one read again: the number of callbacks. */
  function Reloads(lastTime: int, observations: seq<(Option<int>, Option<int>)>): (n: nat)
    ensures n <= |observations|
    decreases |observations|
  {
    if observations == [] then 0
    else
      var (outcome, next) := PollStep(lastTime, observations[0].0, observations[0].1);
      match outcome
      case ReadFailed => 0
      case Unchanged => Reloads(next, observations[1..])
      case Reloaded => 1 + Reloads(next, observations[1..])
  }

  /** If the file is never touched, no run of polls fires the callback. */
  lemma {:induction false} UntouchedFileNeverReloads(lastTime: int, observations: seq<(Option<int>, Option<int>)>)
    requires forall i :: 0 <= i < |observations| ==> observations[i].0 == Some(lastTime)
    ensures Reloads(lastTime, observations) == 0
    ensures StoredTime(lastTime, observations) == lastTime
    decreases |observations|
  {
    if observations != [] {
      assert PollStep(lastTime, observations[0].0, observations[0].1) == (Unchanged, lastTime);
      UntouchedFileNeverReloads(lastTime, observations[1..]);
    }
  }

  /** The timestamp the worker holds after a run of polls: each poll stores
      what the poll step says, and the run stops at the first timestamp it
      cannot read. */
  function StoredTime(lastTime: int, observations: seq<(Option<int>, Option<int>)>): (t: int)
    ensures t == lastTime || exists i :: 0 <= i < |observations| && observations[i].1 == Some(t)
    decreases |observations|
  {
    if observations == [] then lastTime
    else
      var (outcome, next) := PollStep(lastTime, observations[0].0, observations[0].1);
      if outcome == ReadFailed then lastTime
      else
        var t := StoredTime(next, observations[1..]);
        assert forall i :: 0 <= i < |observations[1..]| ==> observations[1..][i] == observations[i + 1];
        t
  }

  /** The worker ends a run holding the last re-read timestamp of a reload:
      a change followed by polls of the same timestamp leaves that timestamp
      stored, with one callback. */
  lemma {:induction false} ChangeThenQuietStoresNewTime(lastTime: int, now: int, quiet: nat)
    requires now != lastTime
    ensures StoredTime(lastTime, [(Some(now), Some(now))] + seq(quiet, _ => (Some(now), Some(now)))) == now
    ensures Reloads(lastTime, [(Some(now), Some(now))] + seq(quiet, _ => (Some(now), Some(now)))) == 1
  {
    var obs := [(Some(now), Some(now))] + seq(quiet, _ => (Some(now), Some(now)));
    assert PollStep(lastTime, Some(now), Some(now)) == (Reloaded, now);
    assert obs[1..] == seq(quiet, _ => (Some(now), Some(now)));
    UntouchedFileNeverReloads(now, obs[1..]);
  }

  /** The sleep between two polls, in milliseconds, for a rate of fps polls
      per second: the integer quotient of 1000 by fps. */
  function PollIntervalMs(fps: nat): (ms: nat)
    requires fps > 0
    ensures ms * fps <= 1000 < (ms + 1) * fps
  {
    1000 / fps
  }

  lemma DefaultPollInterval()
    ensures PollIntervalMs(10) == 100
  {
  }

  /** The worker started by a successful hot-update registration: the file
      it watches, its poll rate and the timestamp it last saw. */
  class HotUpdateWatch {
    const filePath: string
    const fps: nat
    var lastTime: int

    constructor (filePath: string, fps: nat, startTime: int)
      ensures this.filePath == filePath && this.fps == fps && lastTime == startTime
    {
      this.filePath := filePath;
      this.fps := fps;
      lastTime := startTime;
    }

    /** One iteration of the worker loop after its sleep. */
    method Poll(nowTime: Option<int>, rereadTime: Option<int>) returns (outcome: PollOutcome)
      modifies this
      ensures (outcome, lastTime) == PollStep(old(lastTime), nowTime, rereadTime)
      ensures outcome == Reloaded <==> nowTime.Some? && nowTime.value != old(lastTime) && rereadTime.Some?
      ensures nowTime == Some(old(lastTime)) ==> outcome == Unchanged && lastTime == old(lastTime)
    {
      if nowTime.None? {
        return ReadFailed;
      }
      if nowTime.value == lastTime {
        return Unchanged;
      }
      if rereadTime.None? {
        return ReadFailed;
      }
      lastTime := rereadTime.value;
      outcome := Reloaded;
    }
  }

  /** The worker loop over a finite run of observations: it polls each in
      turn and stops at the first timestamp it cannot read, where the worker
      throws. Returns how many times the callback ran. */
  method RunWatch(watch: HotUpdateWatch, observations: seq<(Option<int>, Option<int>)>) returns (reloads: nat)
    modifies watch
    ensures reloads == Reloads(old(watch.lastTime), observations)
    ensures watch.lastTime == StoredTime(old(watch.lastTime), observations)
  {
    reloads := 0;
    var i := 0;
    while i < |observations|
      invariant 0 <= i <= |observations|
      invariant reloads + Reloads(watch.lastTime, observations[i..]) == Reloads(old(watch.lastTime), observations)
      invariant StoredTime(watch.lastTime, observations[i..]) == StoredTime(old(watch.lastTime), observations)
    {
      assert observations[i..][1..] == observations[i + 1..];
      var outcome := watch.Poll(observations[i].0, observations[i].1);
      if outcome == ReadFailed {
        return;
      }
      if outcome == Reloaded {
        reloads := reloads + 1;
      }
      i := i + 1;
    }
  }

  /** The configuration reader: the folder its file names are relative to. */
  class ConfigReader {
    var configPath: string

    /** A reader starts from the configuration folder fixed at build time. */
    constructor (configDir: string)
      ensures configPath == configDir
    {
      configPath := configDir;
    }

    /** Switches to a new configuration folder, but only to an existing
        directory; a missing path or a non-directory leaves it unchanged. */
    method SetConfigPath(fs: FileSystem, dirPath: string)
      modifies this
      ensures configPath == if Exists(fs, dirPath) && IsDirectory(fs, dirPath) then dirPath else old(configPath)
    {
      if Exists(fs, dirPath) {
        if IsDirectory(fs, dirPath) {
          configPath := dirPath;
        }
      }
    }

    /** The path of a configuration file: the folder and the file name
        concatenated, without a separator. */
    function FilePath(fileName: string): (path: string)
      reads this
      ensures |path| == |configPath| + |fileName|
      ensures path[..|configPath|] == configPath && path[|configPath|..] == fileName
    {
      configPath + fileName
    }

    /** Reads one key of one file as a value of the default's type. A missing
        or unopenable file gives the default; an opened file gives the
        decoded node, the empty node for a missing key. */
    function ReadData(fs: FileSystem, fileName: string, dataName: string, defaultVal: ConfigValue): (r: ConfigValue)
      reads this
      ensures r.Type() == defaultVal.Type()
      ensures !Exists(fs, FilePath(fileName)) ==> r == defaultVal
      ensures Open(fs, FilePath(fileName)).None? ==> r == defaultVal
      ensures Open(fs, FilePath(fileName)).Some? ==>
                r == Decode(Lookup(Open(fs, FilePath(fileName)).value, dataName), defaultVal.Type())
    {
      var filePath := FilePath(fileName);
      if !Exists(fs, filePath) then defaultVal
      else match Open(fs, filePath)
        case None => defaultVal
        case Some(storage) => Decode(Lookup(storage, dataName), defaultVal.Type())
    }

    /** Reading a key with a C string default: the same as reading it with
        the string built from that default. */
    function ReadDataText(fs: FileSystem, fileName: string, dataName: string, defaultVal: string): (r: string)
      reads this
      ensures StringValue(r) == ReadData(fs, fileName, dataName, StringValue(defaultVal))
    {
      ReadData(fs, fileName, dataName, StringValue(defaultVal)).s
    }

    /** Registration succeeds exactly when the watched file exists; only then
        is a worker started, seeded with the file's current timestamp. */
    method RegisterHotUpdate(fs: FileSystem, fileName: string, fps: nat := 10)
      returns (registered: bool, watch: HotUpdateWatch?)
      ensures registered <==> Exists(fs, FilePath(fileName))
      ensures !registered ==> watch == null
      ensures registered ==> watch != null && fresh(watch)
      ensures registered ==> watch.filePath == FilePath(fileName) && watch.fps == fps
      ensures registered ==> watch.lastTime == fs[FilePath(fileName)].mtime
    {
      var filePath := FilePath(fileName);
      if !Exists(fs, filePath) {
        return false, null;
      }
      watch := new HotUpdateWatch(filePath, fps, fs[filePath].mtime);
      registered := true;
    }
  }

  /** Once a file is opened the default plays no part: any two defaults of
      the same type read the same value, whether the key is there or not. */
  lemma ReadDataIgnoresDefaultWhenOpened(reader: ConfigReader, fs: FileSystem, fileName: string, dataName: string,
                                         d1: ConfigValue, d2: ConfigValue)
    requires d1.Type() == d2.Type()
    requires Open(fs, reader.FilePath(fileName)).Some?
    ensures reader.ReadData(fs, fileName, dataName, d1) == reader.ReadData(fs, fileName, dataName, d2)
  {
  }

  /** A key missing from an opened file reads as the zero of its type, not
      as the default. */
  lemma MissingKeyReadsZero(reader: ConfigReader, fs: FileSystem, fileName: string, dataName: string, defaultVal: ConfigValue)
    requires Open(fs, reader.FilePath(fileName)).Some?
    requires dataName !in Open(fs, reader.FilePath(fileName)).value
    ensures reader.ReadData(fs, fileName, dataName, defaultVal) == ZeroValue(defaultVal.Type())
  {
  }
}
