/** What src/InterfaceDetector.ts promises about its counters, keys and files, proved about the model. */
module InterfaceDetectorProperties {
  import opened Wrappers
  import opened JsValues
  import opened DiffShapes
  import opened InterfaceDetector

  // ===========================================================================
  // processMessage
  // ===========================================================================

  /**
   * `sampled` grows by one for every counted message, even one whose shaping
   * throws; `found` grows by one for a counted message with a new key; so
   * `found <= sampled` is kept.
   */
  lemma ProcessCounters(env: Env, st: State, message: Value, isOld: bool, resetStats: bool)
    ensures var o := Process(env, st, message, isOld, resetStats);
            o.state.stats.sampled == st.stats.sampled + (if Counted(isOld, resetStats) then 1 else 0) &&
            o.state.stats.found == st.stats.found + (if Returned(o) && Counted(isOld, resetStats) then 1 else 0) &&
            (st.stats.found <= st.stats.sampled ==> o.state.stats.found <= o.state.stats.sampled)
  {
  }

  /**
   * A key is returned exactly when the message's key is not yet known; it is
   * then added, and the known keys never shrink.
   */
  lemma ProcessKeys(env: Env, st: State, message: Value, isOld: bool, resetStats: bool)
    ensures var o := Process(env, st, message, isOld, resetStats);
            (o.result.Ok? <==> KeyOf(env, message).Ok?) &&
            (o.result.Ok? ==> (o.result.value.Some? <==> KeyOf(env, message).value !in st.keys)) &&
            (Returned(o) ==> o.result.value.value == KeyOf(env, message).value) &&
            o.state.keys == st.keys + (if Returned(o) then {o.result.value.value} else {})
  {
  }

  /** Without a new key (a known key, or a throw) nothing but `sampled` changes. */
  lemma ProcessKnownKey(env: Env, st: State, message: Value, isOld: bool, resetStats: bool)
    ensures var o := Process(env, st, message, isOld, resetStats);
            !Returned(o) ==> o.state == st.(stats := st.stats.(sampled := o.state.stats.sampled))
  {
  }

  /**
   * With a new key the shape file is written (unless the raw write to the
   * same path overwrote it), the raw file only for a live message, and no
   * other file changes.
   */
  lemma ProcessFiles(env: Env, st: State, message: Value, isOld: bool, resetStats: bool)
    ensures var o := Process(env, st, message, isOld, resetStats);
            Returned(o) ==>
              var key := o.result.value.value;
              var s := ShapeOf(message).value;
              ShapePath(env, key) in o.state.files &&
              (isOld || ShapePath(env, key) != RawPath(env, key) ==>
                 o.state.files[ShapePath(env, key)] == env.stringify(s.shape)) &&
              (!isOld ==> RawPath(env, key) in o.state.files && o.state.files[RawPath(env, key)] == Serialise(env, s.thing)) &&
              forall p :: p != ShapePath(env, key) && (isOld || p != RawPath(env, key)) ==>
                (p in o.state.files <==> p in st.files) && (p in st.files ==> o.state.files[p] == st.files[p])
  {
  }

  /**
   * After a new key the shortest shape is set and no longer than that shape;
   * once set to a non-zero length it never grows; its path changes only
   * together with it, to the new shape file.
   */
  lemma ProcessShortest(env: Env, st: State, message: Value, isOld: bool, resetStats: bool)
    ensures var o := Process(env, st, message, isOld, resetStats);
            var before, after := st.stats, o.state.stats;
            (Returned(o) ==>
               after.shortestShape.Some? && after.shortestShape.value <= |env.stringify(ShapeOf(message).value.shape)|) &&
            (before.shortestShape.Some? && before.shortestShape.value != 0 ==>
               after.shortestShape.Some? && after.shortestShape.value <= before.shortestShape.value) &&
            (after.shortestShapePath != before.shortestShapePath ==>
               Returned(o) && after.shortestShapePath == Some(ShapePath(env, o.result.value.value)) &&
               after.shortestShape == Some(|env.stringify(ShapeOf(message).value.shape)|))
  {
  }

  /**
   * The same live message twice (each arrival a fresh object): the first
   * call returns its key, the second `undefined`; `sampled` grows by two and
   * `found` by one.
   */
  lemma SameMessageTwice(env: Env, st: State, message: Value)
    requires KeyOf(env, message).Ok? && KeyOf(env, message).value !in st.keys
    ensures var first := Process(env, st, message, false, false);
            var second := Process(env, first.state, message, false, false);
            first.result == Ok(Some(KeyOf(env, message).value)) && second.result == Ok(None) &&
            second.state.stats.sampled == st.stats.sampled + 2 && second.state.stats.found == st.stats.found + 1
  {
  }

  // ===========================================================================
  // loadExisting
  // ===========================================================================

  /** One replayed file: a counted replay, the key set and `found` as `processMessage` leaves them. */
  lemma ReplayFileCounters(env: Env, st: State, file: string, resetStats: bool)
    ensures var r := ReplayFile(env, st, file, resetStats);
            st.keys <= r.state.keys &&
            r.state.stats.found - st.stats.found == (if resetStats then |r.state.keys| - |st.keys| else 0) &&
            (r.failure.None? ==> r.state.stats.sampled == st.stats.sampled + (if resetStats then 1 else 0)) &&
            (!resetStats ==> r.state.stats.sampled == st.stats.sampled) &&
            (st.stats.found <= st.stats.sampled ==> r.state.stats.found <= r.state.stats.sampled)
  {
    var shapePath := JoinPath(env.shapeDir, file);
    if shapePath in st.files && env.parse(st.files[shapePath]).Some? {
      var message := env.parse(st.files[shapePath]).value;
      var o := Process(env, st, message, true, resetStats);
      ReplayFileProcessed(env, st, file, resetStats, message);
      ProcessCounters(env, st, message, true, resetStats);
      ProcessKeys(env, st, message, true, resetStats);
      if Returned(o) {
        assert |o.state.keys| == |st.keys| + 1;
      }
    }
  }

  /** A file that parses is replayed as its message: same counters, same keys, fails exactly when processing does. */
  lemma ReplayFileProcessed(env: Env, st: State, file: string, resetStats: bool, message: Value)
    requires JoinPath(env.shapeDir, file) in st.files
    requires env.parse(st.files[JoinPath(env.shapeDir, file)]) == Some(message)
    ensures var r, o := ReplayFile(env, st, file, resetStats), Process(env, st, message, true, resetStats);
            r.state.stats == o.state.stats && r.state.keys == o.state.keys && (r.failure.None? <==> o.result.Ok?)
  {
  }

  /**
   * Replaying the listing never forgets a key; `found` grows by the number
   * of new keys when the load failed and not at all when it succeeded; and
   * `sampled` grows by one per replayed file when the load failed and not at
   * all when it succeeded.
   */
  lemma {:induction false} ReplayCounters(env: Env, st: State, existing: seq<string>, i: nat, resetStats: bool)
    requires i <= |existing|
    ensures var r := Replay(env, st, existing, i, resetStats);
            st.keys <= r.state.keys &&
            r.state.stats.found - st.stats.found == (if resetStats then |r.state.keys| - |st.keys| else 0) &&
            (r.failure.None? ==> r.state.stats.sampled == st.stats.sampled + (if resetStats then |existing| - i else 0)) &&
            (!resetStats ==> r.state.stats.sampled == st.stats.sampled) &&
            (st.stats.found <= st.stats.sampled ==> r.state.stats.found <= r.state.stats.sampled)
    decreases |existing| - i
  {
    if i < |existing| {
      ReplayFileCounters(env, st, existing[i], resetStats);
      var r := ReplayFile(env, st, existing[i], resetStats);
      if r.failure.None? {
        ReplayCounters(env, r.state, existing, i + 1, resetStats);
      }
    }
  }

  /**
   * Start-up with the statistics loaded leaves `sampled` and `found` as
   * loaded; after a failed load every replayed file is sampled again and
   * every distinct shape found again, so `found <= sampled` holds afterwards
   * whenever it held before.
   */
  lemma LoadExistingCounters(env: Env, st: State, existing: seq<string>, stored: Option<StatsRecord>)
    ensures var r := LoadAndReplay(env, st, existing, stored);
            st.keys <= r.state.keys &&
            (stored.Some? ==> r.state.stats.sampled == stored.value.sampled && r.state.stats.found == stored.value.found) &&
            (stored.None? && r.failure.None? ==>
               r.state.stats.sampled == st.stats.sampled + |existing| &&
               r.state.stats.found == st.stats.found + |r.state.keys| - |st.keys|) &&
            (LoadStats(st.stats, stored).found <= LoadStats(st.stats, stored).sampled ==>
               r.state.stats.found <= r.state.stats.sampled)
  {
    ReplayCounters(env, st.(stats := LoadStats(st.stats, stored)), existing, 0, stored.None?);
  }

  /**
   * The deletion rule: once a listed file is read and parsed and its replay
   * does not throw, the file (and the raw file of the same name) is deleted
   * exactly when the replay does not return the file's own name; otherwise
   * the state is the one processMessage left.
   */
  lemma ReplayFileDeletion(env: Env, st: State, file: string, resetStats: bool)
    requires JoinPath(env.shapeDir, file) in st.files
    requires env.parse(st.files[JoinPath(env.shapeDir, file)]).Some?
    ensures var shapePath, rawPath := JoinPath(env.shapeDir, file), JoinPath(env.rawDir, file);
            var o := Process(env, st, env.parse(st.files[shapePath]).value, true, resetStats);
            var r := ReplayFile(env, st, file, resetStats);
            o.result.Ok? ==>
              r.failure.None? &&
              (shapePath in r.state.files <==> o.result.value == Some(NameOf(file))) &&
              (o.result.value == Some(NameOf(file)) ==> r.state == o.state) &&
              (o.result.value != Some(NameOf(file)) ==>
                 rawPath !in r.state.files && r.state.files == o.state.files - {shapePath, rawPath} &&
                 r.state.keys == o.state.keys && r.state.stats == o.state.stats)
  {
  }

  /** A shape file path is the key's name followed by ".json", so the name before the dot is the key. */
  lemma NameOfFileName(key: string)
    requires '.' !in key
    ensures NameOf(FileName(key)) == key
  {
    if key != [] {
      assert FileName(key)[1..] == FileName(key[1..]);
      NameOfFileName(key[1..]);
    } else {
      assert FileName(key)[0] == '.';
    }
  }

  /** Every file a replay creates is the shape file of a known key; in particular no raw file is written. */
  predicate OnlyNewShapeFiles(env: Env, before: State, after: State) {
    forall p :: p in after.files && p !in before.files ==> exists k :: k in after.keys && p == ShapePath(env, k)
  }

  /** A listed file that is still there is named after a known key. */
  predicate SurvivorsKnown(env: Env, st: State, files: seq<string>) {
    forall j :: 0 <= j < |files| && JoinPath(env.shapeDir, files[j]) in st.files ==> NameOf(files[j]) in st.keys
  }

  lemma ReplayFileFiles(env: Env, st: State, file: string, resetStats: bool, done: seq<string>)
    requires forall s :: '.' !in env.hash(s)
    requires SurvivorsKnown(env, st, done)
    ensures var r := ReplayFile(env, st, file, resetStats);
            OnlyNewShapeFiles(env, st, r.state) &&
            (r.failure.None? ==> SurvivorsKnown(env, r.state, done + [file]))
  {
    var shapePath := JoinPath(env.shapeDir, file);
    if shapePath in st.files && env.parse(st.files[shapePath]).Some? {
      var message := env.parse(st.files[shapePath]).value;
      var o := Process(env, st, message, true, resetStats);
      ProcessKeys(env, st, message, true, resetStats);
      ProcessFiles(env, st, message, true, resetStats);
      ProcessKnownKey(env, st, message, true, resetStats);
      var r := ReplayFile(env, st, file, resetStats);
      if Returned(o) {
        var k := o.result.value.value;
        assert k == env.hash(env.stringify(ShapeOf(message).value.shape));
        NameOfFileName(k);
        forall p | p in r.state.files && p !in st.files
          ensures exists k' :: k' in r.state.keys && p == ShapePath(env, k')
        {
          assert p == ShapePath(env, k);
        }
        if r.failure.None? {
          var all := done + [file];
          forall j | 0 <= j < |all| && JoinPath(env.shapeDir, all[j]) in r.state.files
            ensures NameOf(all[j]) in r.state.keys
          {
            var q := JoinPath(env.shapeDir, all[j]);
            if j == |done| {
              assert all[j] == file;
            } else {
              assert all[j] == done[j];
              if q !in st.files {
                assert q == ShapePath(env, k);
                assert all[j] == FileName(k);
              }
            }
          }
        }
      } else if r.failure.None? {
        var all := done + [file];
        forall j | 0 <= j < |all| && JoinPath(env.shapeDir, all[j]) in r.state.files
          ensures NameOf(all[j]) in r.state.keys
        {
          if j < |done| {
            assert all[j] == done[j];
          }
        }
      }
    }
  }

  lemma OnlyNewShapeFilesTrans(env: Env, a: State, b: State, c: State)
    requires b.keys <= c.keys
    requires OnlyNewShapeFiles(env, a, b) && OnlyNewShapeFiles(env, b, c)
    ensures OnlyNewShapeFiles(env, a, c)
  {
    forall p | p in c.files && p !in a.files
      ensures exists k :: k in c.keys && p == ShapePath(env, k)
    {
      if p in b.files {
        var k :| k in b.keys && p == ShapePath(env, k);
        assert k in c.keys;
      }
    }
  }

  lemma {:induction false} ReplayFiles(env: Env, st: State, existing: seq<string>, i: nat, resetStats: bool)
    requires i <= |existing|
    requires forall s :: '.' !in env.hash(s)
    requires SurvivorsKnown(env, st, existing[..i])
    ensures var r := Replay(env, st, existing, i, resetStats);
            OnlyNewShapeFiles(env, st, r.state) && (r.failure.None? ==> SurvivorsKnown(env, r.state, existing))
    decreases |existing| - i
  {
    if i == |existing| {
      assert existing[..i] == existing;
    } else {
      var r := ReplayFile(env, st, existing[i], resetStats);
      ReplayFileFiles(env, st, existing[i], resetStats, existing[..i]);
      if r.failure.None? {
        PrefixNext(existing, i);
        ReplayFiles(env, r.state, existing, i + 1, resetStats);
        ReplayCounters(env, r.state, existing, i + 1, resetStats);
        OnlyNewShapeFilesTrans(env, st, r.state, Replay(env, r.state, existing, i + 1, resetStats).state);
      }
    }
  }

  lemma PrefixNext(existing: seq<string>, i: nat)
    requires i < |existing|
    ensures existing[..i] + [existing[i]] == existing[..i + 1]
  {
  }

  /**
   * After start-up the only files added are shape files of known keys (no
   * raw file is written for a replayed message), and when every listed file
   * was replayed, each listed shape file still on disk is named after a known
   * key: a file whose replay returns another name or `undefined` is deleted;
   * anything at its path afterwards was written for a known key.
   */
  lemma LoadExistingFiles(env: Env, st: State, existing: seq<string>, stored: Option<StatsRecord>)
    requires forall s :: '.' !in env.hash(s)
    ensures var r := LoadAndReplay(env, st, existing, stored);
            OnlyNewShapeFiles(env, st, r.state) && (r.failure.None? ==> SurvivorsKnown(env, r.state, existing))
  {
    var loaded := st.(stats := LoadStats(st.stats, stored));
    assert existing[..0] == [];
    ReplayFiles(env, loaded, existing, 0, stored.None?);
  }
}
