/**
 * The deduplication engine of src/InterfaceDetector.ts: every message is
 * shaped, the shape serialised and hashed, and a hash not seen before is a
 * new interface whose shape (and, for live messages, raw message) is written
 * to disk. On start-up the shape files already on disk are replayed.
 *
 * The functions Process and Replay state what one call does to the whole
 * state; the classes below carry that state in fields and are proved to
 * change it exactly as the functions say.
 */
module InterfaceDetector {
  import opened Wrappers
  import opened JsValues
  import opened DiffShapes
  import opened DeepShapeImpl

  // ---------------------------------------------------------------------------
  // The state, as values
  // ---------------------------------------------------------------------------

  /** The fields of `Stats`; an absent optional field is `undefined`. */
  datatype StatsRecord = StatsRecord(sampled: int, found: int, shortestShape: Option<int>, shortestShapePath: Option<string>)

  /**
   * What the detector is given: the two directories, and the library calls
   * `JSON.stringify(_, null, 2)`, md5-as-hex and `JSON.parse`, each a
   * deterministic function here.
   */
  datatype Env = Env(
    shapeDir: string,
    rawDir: string,
    stringify: Value -> string,
    hash: string -> string,
    parse: string -> Option<Value>)

  /** The counters, the set of known keys, and the file system as a map from path to contents. */
  datatype State = State(stats: StatsRecord, keys: set<string>, files: map<string, string>)

  /** What `processMessage` resolves to (a key or `undefined`) or throws, and the state afterwards. */
  datatype Outcome = Outcome(result: Result<Option<string>>, state: State)

  /** The call returned a key, i.e. the message's shape was new. */
  predicate Returned(o: Outcome) {
    o.result.Ok? && o.result.value.Some?
  }

  /** How `loadExisting` ends (`None` when it resolves) and the state afterwards. */
  datatype Replayed = Replayed(failure: Option<JsError>, state: State)

  // ---------------------------------------------------------------------------
  // Paths and file contents
  // ---------------------------------------------------------------------------

  /** `[dir, file].join(path.sep)` on a POSIX system. */
  function JoinPath(dir: string, file: string): (p: string)
    ensures |p| == |dir| + 1 + |file| && p[..|dir|] == dir && p[|dir| + 1..] == file
  {
    dir + "/" + file
  }

  function FileName(key: string): string {
    key + ".json"
  }

  function ShapePath(env: Env, key: string): string {
    JoinPath(env.shapeDir, FileName(key))
  }

  function RawPath(env: Env, key: string): string {
    JoinPath(env.rawDir, FileName(key))
  }

  /** `file.split('.')[0]`: the file name up to its first dot. */
  function NameOf(file: string): (name: string)
    ensures name <= file && '.' !in name
    ensures |name| < |file| ==> file[|name|] == '.'
  {
    if file == [] || file[0] == '.' then [] else [file[0]] + NameOf(file[1..])
  }

  /** `writeObjectFile`'s contents: a string as it is, anything else through `JSON.stringify(_, null, 2)`. */
  function Serialise(env: Env, data: Value): string {
    if data.Str? then data.s else env.stringify(data)
  }

  // ---------------------------------------------------------------------------
  // processMessage and loadExisting, as functions of the state
  // ---------------------------------------------------------------------------

  /** The condition under which a message counts in the statistics: live, or replayed after a failed load. */
  predicate Counted(isOld: bool, resetStats: bool) {
    !isOld || resetStats
  }

  /** `!shortestShape || length < shortestShape`: unset and 0 are both falsy. */
  predicate Shorter(shortest: Option<int>, length: nat) {
    shortest.None? || shortest.value == 0 || length < shortest.value
  }

  /** The key `processMessage` computes for a message, when shaping it does not throw. */
  function KeyOf(env: Env, message: Value): Result<string> {
    match ShapeOf(message)
    case Err(e) => Err(e)
    case Ok(s) => Ok(env.hash(env.stringify(s.shape)))
  }

  /** `processMessage(message, { old: isOld, resetStats })`: its result and the state afterwards. */
  function Process(env: Env, st: State, message: Value, isOld: bool, resetStats: bool): (o: Outcome)
    ensures o.state.stats.sampled == st.stats.sampled + (if Counted(isOld, resetStats) then 1 else 0)
    ensures st.keys <= o.state.keys && st.files.Keys <= o.state.files.Keys
    ensures Returned(o) ==> o.result.value.value !in st.keys && o.state.keys == st.keys + {o.result.value.value}
    ensures !Returned(o) ==> o.state.keys == st.keys && o.state.files == st.files
  {
    var counted := Counted(isOld, resetStats);
    var st1 := Sample(st, counted);
    match ShapeOf(message)
    case Err(e) => Outcome(Err(e), st1)
    case Ok(s) =>
      var shapeString := env.stringify(s.shape);
      var key := env.hash(shapeString);
      if key in st1.keys then Outcome(Ok(None), st1)
      else Outcome(Ok(Some(key)), NewShape(env, st1, key, shapeString, if isOld then None else Some(Serialise(env, s.thing)), counted))
  }

  /** Lines 71-73: count the message as sampled. */
  function Sample(st: State, counted: bool): State {
    st.(stats := st.stats.(sampled := if counted then st.stats.sampled + 1 else st.stats.sampled))
  }

  /** `stats.shortestShape` and its path after a new shape of the given length. */
  function Shortest(stats: StatsRecord, length: nat, shapePath: string): (r: StatsRecord)
    ensures r.shortestShape.Some? && r.shortestShape.value <= length
    ensures stats.shortestShape.Some? && stats.shortestShape.value != 0 ==> r.shortestShape.value <= stats.shortestShape.value
    ensures r.shortestShapePath != stats.shortestShapePath ==> r.shortestShapePath == Some(shapePath) && r.shortestShape == Some(length)
    ensures r.sampled == stats.sampled && r.found == stats.found
  {
    if Shorter(stats.shortestShape, length)
    then stats.(shortestShape := Some(length), shortestShapePath := Some(shapePath))
    else stats
  }

  /** Lines 78-97: record a new key, its shape file, its raw file when given, and count it as found. */
  function NewShape(env: Env, st: State, key: string, shapeString: string, raw: Option<string>, counted: bool): (r: State)
    ensures r.keys == st.keys + {key}
    ensures r.stats.sampled == st.stats.sampled && r.stats.found == st.stats.found + (if counted then 1 else 0)
    ensures r.files.Keys == st.files.Keys + {ShapePath(env, key)} + (if raw.Some? then {RawPath(env, key)} else {})
    ensures raw.None? || ShapePath(env, key) != RawPath(env, key) ==> r.files[ShapePath(env, key)] == shapeString
    ensures raw.Some? ==> r.files[RawPath(env, key)] == raw.value
    ensures forall p :: p in st.files && p != ShapePath(env, key) && (raw.None? || p != RawPath(env, key))
                        ==> r.files[p] == st.files[p]
  {
    var stats := Shortest(st.stats, |shapeString|, ShapePath(env, key));
    var files := st.files[ShapePath(env, key) := shapeString];
    var files' := if raw.Some? then files[RawPath(env, key) := raw.value] else files;
    State(if counted then stats.(found := stats.found + 1) else stats, st.keys + {key}, files')
  }

  /** `stats.load()`: the stored record when it could be read, otherwise the fields as they were. */
  function LoadStats(stats: StatsRecord, stored: Option<StatsRecord>): (r: StatsRecord)
    ensures stored.Some? ==> r == stored.value
    ensures stored.None? ==> r == stats
  {
    if stored.Some? then stored.value else stats
  }

  /**
   * One pass of the loop of `loadExisting`: read and parse the file, replay
   * it as an old message, and delete it (and its raw file, if any) unless the
   * replay returned the file's own name.
   */
  function ReplayFile(env: Env, st: State, file: string, resetStats: bool): (r: Replayed)
    ensures JoinPath(env.shapeDir, file) !in st.files ==> r == Replayed(Some(NoSuchFile), st)
    ensures r.failure.None? ==> JoinPath(env.shapeDir, file) in st.files && env.parse(st.files[JoinPath(env.shapeDir, file)]).Some?
    ensures st.keys <= r.state.keys
    ensures !resetStats ==> r.state.stats.sampled == st.stats.sampled && r.state.stats.found == st.stats.found
  {
    var shapePath := JoinPath(env.shapeDir, file);
    if shapePath !in st.files then Replayed(Some(NoSuchFile), st)
    else
      match env.parse(st.files[shapePath])
      case None => Replayed(Some(SyntaxError), st)
      case Some(message) =>
        var o := Process(env, st, message, true, resetStats);
        match o.result
        case Err(e) => Replayed(Some(e), o.state)
        case Ok(returned) =>
          if returned != Some(NameOf(file))
          then Replayed(None, o.state.(files := o.state.files - {shapePath, JoinPath(env.rawDir, file)}))
          else Replayed(None, o.state)
  }

  /** The loop of `loadExisting` from the `i`-th listed file on; the first failure ends it. */
  function Replay(env: Env, st: State, existing: seq<string>, i: nat, resetStats: bool): (r: Replayed)
    requires i <= |existing|
    ensures st.keys <= r.state.keys
    ensures !resetStats ==> r.state.stats.sampled == st.stats.sampled && r.state.stats.found == st.stats.found
    decreases |existing| - i
  {
    if i == |existing| then Replayed(None, st)
    else
      var r := ReplayFile(env, st, existing[i], resetStats);
      if r.failure.Some? then r else Replay(env, r.state, existing, i + 1, resetStats)
  }

  /** `loadExisting`: load the statistics, then replay the listing, counting only if the load failed. */
  function LoadAndReplay(env: Env, st: State, existing: seq<string>, stored: Option<StatsRecord>): (r: Replayed)
    ensures st.keys <= r.state.keys
    ensures stored.Some? ==> r.state.stats.sampled == stored.value.sampled && r.state.stats.found == stored.value.found
  {
    Replay(env, st.(stats := LoadStats(st.stats, stored)), existing, 0, stored.None?)
  }

  // ---------------------------------------------------------------------------
  // The objects
  // ---------------------------------------------------------------------------

  class Stats {
    var sampled: int
    var found: int
    var shortestShape: Option<int>
    var shortestShapePath: Option<string>
    const savePath: string

    function Record(): StatsRecord
      reads this
    {
      StatsRecord(sampled, found, shortestShape, shortestShapePath)
    }

    constructor(savePath: string)
      ensures this.savePath == savePath
      ensures Record() == StatsRecord(0, 0, None, None)
    {
      this.savePath := savePath;
      sampled, found := 0, 0;
      shortestShape, shortestShapePath := None, None;
    }

    /**
     * `load()`: `stored` is what reading and parsing the file at `savePath`
     * gave (`None` when that threw); the fields take the stored values.
     */
    method Load(stored: Option<StatsRecord>) returns (ok: bool)
      modifies this
      ensures ok == stored.Some?
      ensures Record() == LoadStats(old(Record()), stored)
    {
      if stored.None? {
        return false;
      }
      sampled, found := stored.value.sampled, stored.value.found;
      shortestShape, shortestShapePath := stored.value.shortestShape, stored.value.shortestShapePath;
      return true;
    }
  }

  /** The file system the detector reads and writes. */
  class FileStore {
    var files: map<string, string>

    constructor(files: map<string, string>)
      ensures this.files == files
    {
      this.files := files;
    }

    /** `writeObjectFile(path, contents)` */
    method Write(path: string, contents: string)
      modifies this
      ensures files == old(files)[path := contents]
    {
      files := files[path := contents];
    }

    /** `fs.promises.rm(path, { force })`: without force a missing file is an error. */
    method Remove(path: string, force: bool) returns (failure: Option<JsError>)
      modifies this
      ensures failure.Some? <==> !force && path !in old(files)
      ensures files == old(files) - {path}
    {
      if path !in files && !force {
        return Some(NoSuchFile);
      }
      files := files - {path};
      return None;
    }
  }

  class Detector {
    var shapeKeys: set<string>
    const stats: Stats
    const store: FileStore
    const shapeDir: string
    const rawDir: string
    const stringify: Value -> string
    const hash: string -> string
    const parse: string -> Option<Value>

    function Environment(): Env {
      Env(shapeDir, rawDir, stringify, hash, parse)
    }

    function Snapshot(): State
      reads this, stats, store
    {
      State(stats.Record(), shapeKeys, store.files)
    }

    constructor(stats: Stats, store: FileStore, shapeDir: string, rawDir: string,
                stringify: Value -> string, hash: string -> string, parse: string -> Option<Value>)
      ensures this.stats == stats && this.store == store
      ensures Environment() == Env(shapeDir, rawDir, stringify, hash, parse)
      ensures shapeKeys == {}
    {
      this.stats, this.store := stats, store;
      this.shapeDir, this.rawDir := shapeDir, rawDir;
      this.stringify, this.hash, this.parse := stringify, hash, parse;
      shapeKeys := {};
    }

    /** `processMessage(message, { old: isOld, resetStats })` */
    method ProcessMessage(message: Value, isOld: bool, resetStats: bool) returns (res: Result<Option<string>>)
      modifies this, stats, store
      ensures var o := Process(Environment(), old(Snapshot()), message, isOld, resetStats);
              res == o.result && Snapshot() == o.state
    {
      ghost var st := Snapshot();
      if !isOld || resetStats {
        stats.sampled := stats.sampled + 1;
      }
      assert Snapshot() == Sample(st, Counted(isOld, resetStats));
      var shaped := DeepShape(message);
      if shaped.Err? {
        return Err(shaped.error);
      }
      var shapeString := stringify(shaped.value.shape);
      var key := hash(shapeString);
      if key in shapeKeys {
        return Ok(None);
      }
      var raw := if isOld then None else Some(Serialise(Environment(), shaped.value.thing));
      RecordNewShape(key, shapeString, raw, resetStats || !isOld);
      return Ok(Some(key));
    }

    /** Lines 78-97 of `processMessage`, for a key not seen before. */
    method RecordNewShape(key: string, shapeString: string, raw: Option<string>, counted: bool)
      modifies this, stats, store
      ensures Snapshot() == NewShape(Environment(), old(Snapshot()), key, shapeString, raw, counted)
    {
      shapeKeys := shapeKeys + {key};
      var shapePath, rawPath := JoinPath(shapeDir, FileName(key)), JoinPath(rawDir, FileName(key));
      if Shorter(stats.shortestShape, |shapeString|) {
        stats.shortestShape := Some(|shapeString|);
        stats.shortestShapePath := Some(shapePath);
      }
      store.Write(shapePath, shapeString);
      if raw.Some? {
        store.Write(rawPath, raw.value);
      }
      if counted {
        stats.found := stats.found + 1;
      }
    }

    /** The body of the loop of `loadExisting` for one listed file. */
    method ReplayOne(file: string, resetStats: bool) returns (failure: Option<JsError>)
      modifies this, stats, store
      ensures Replayed(failure, Snapshot()) == ReplayFile(Environment(), old(Snapshot()), file, resetStats)
    {
      var name := NameOf(file);
      var shapePath := JoinPath(shapeDir, file);
      if shapePath !in store.files {
        return Some(NoSuchFile);
      }
      var entry := store.files[shapePath];
      var message := parse(entry);
      if message.None? {
        return Some(SyntaxError);
      }
      var returned := ProcessMessage(message.value, true, resetStats);
      if returned.Err? {
        return Some(returned.error);
      }
      if returned.value != Some(name) {
        Discard(file);
      }
      return None;
    }

    /** Lines 121-122: delete a replayed shape file and, if there is one, its raw file. */
    method Discard(file: string)
      requires JoinPath(shapeDir, file) in store.files
      modifies store
      ensures store.files == old(store.files) - {JoinPath(shapeDir, file), JoinPath(rawDir, file)}
    {
      var failed := store.Remove(JoinPath(shapeDir, file), false);
      // the file was just read and processMessage deletes nothing, so this rm cannot throw
      assert failed.None?;
      var _ := store.Remove(JoinPath(rawDir, file), true);
    }

    /**
     * `loadExisting()`: `existing` is the listing of the shape directory and
     * `stored` what reading the statistics file gave.
     */
    method LoadExisting(existing: seq<string>, stored: Option<StatsRecord>) returns (failure: Option<JsError>)
      modifies this, stats, store
      ensures var r := LoadAndReplay(Environment(), old(Snapshot()), existing, stored);
              failure == r.failure && Snapshot() == r.state
    {
      var loaded := stats.Load(stored);
      var resetStats := !loaded;
      ghost var start := Snapshot();
      var i := 0;
      while i < |existing|
        invariant i <= |existing|
        invariant Replay(Environment(), Snapshot(), existing, i, resetStats) == Replay(Environment(), start, existing, 0, resetStats)
      {
        var failed := ReplayOne(existing[i], resetStats);
        if failed.Some? {
          return failed;
        }
        i := i + 1;
      }
      return None;
    }
  }
}
