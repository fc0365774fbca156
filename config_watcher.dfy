/** `core/config_watcher.py`: the change event between two readings of a
    configuration file, and the watcher that keeps the last reading of each
    watched file, queues change notifications without duplicates and
    dispatches each change to the registered callbacks. Reading a file and
    the file-system watcher's answers are parameters; each callback
    invocation is recorded in a log. */
module ConfigWatch {
  import opened Wrappers
  import opened JsonValue
  import opened QueryText
  import opened Ranking
  import KnowledgeIndex

  /** A configuration file's top-level object, keys in file order. */
  type Config = seq<(string, Json)>

  /** `config.get(key)`: a missing key reads as `None`, like a JSON null. */
  function Get(c: Config, key: string): Json {
    GetOr(c, key, JNull)
  }

  /** The list without repeats, in order of first occurrence. */
  function Distinct(s: seq<string>): (r: seq<string>)
    ensures NoDup(r)
  {
    if s == [] then [] else KnowledgeIndex.AppendOnce(Distinct(s[..|s| - 1]), s[|s| - 1])
  }

  lemma {:induction false} DistinctMembers(s: seq<string>, x: string)
    ensures x in Distinct(s) <==> x in s
  {
    if s != [] {
      DistinctMembers(s[..|s| - 1], x);
      assert s == s[..|s| - 1] + [s[|s| - 1]];
    }
  }

  /** The keys among `keys` whose values differ, in the order of `keys`. */
  function ChangedAmong(keys: seq<string>, before: Config, after: Config): (r: seq<string>)
    ensures forall k :: k in r ==> k in keys
    ensures NoDup(keys) ==> NoDup(r)
  {
    if keys == [] then []
    else
      assert NoDup(keys) ==> keys[0] !in keys[1..];
      (if PyEq(Get(before, keys[0]), Get(after, keys[0])) then [] else [keys[0]])
      + ChangedAmong(keys[1..], before, after)
  }

  lemma {:induction false} ChangedAmongMembers(keys: seq<string>, before: Config, after: Config, k: string)
    ensures k in ChangedAmong(keys, before, after) <==> k in keys && !PyEq(Get(before, k), Get(after, k))
  {
    if keys != [] {
      ChangedAmongMembers(keys[1..], before, after, k);
      assert keys == [keys[0]] + keys[1..];
    }
  }

  /** `ConfigChangeEvent(file_path, old_config, new_config)`. */
  datatype ConfigChangeEvent = ConfigChangeEvent(path: string, oldConfig: Config, newConfig: Config)

  /** `changed_keys`: the keys of either reading whose `.get` values differ.
      Python iterates this set in hash order; the model lists the keys of
      the old reading first, then the keys only the new one has. */
  function ChangedKeys(e: ConfigChangeEvent): (r: seq<string>)
    ensures NoDup(r)
  {
    ChangedAmong(Distinct(FirstsOf(e.oldConfig) + FirstsOf(e.newConfig)), e.oldConfig, e.newConfig)
  }

  lemma KeysListed(c: Config, k: string)
    ensures k in FirstsOf(c) <==> k in Keys(c)
  {
    if k in Keys(c) {
      var f :| f in c && f.0 == k;
      var i :| 0 <= i < |c| && c[i] == f;
      assert FirstsOf(c)[i] == k;
    }
  }

  /** A key is changed exactly when one of the readings has it and the two
      `.get` values differ. */
  lemma ChangedKeysMeaning(e: ConfigChangeEvent, k: string)
    ensures k in ChangedKeys(e) <==>
              (k in Keys(e.oldConfig) || k in Keys(e.newConfig)) && !PyEq(Get(e.oldConfig, k), Get(e.newConfig, k))
  {
    KeysListed(e.oldConfig, k);
    KeysListed(e.newConfig, k);
    var all := FirstsOf(e.oldConfig) + FirstsOf(e.newConfig);
    DistinctMembers(all, k);
    ChangedAmongMembers(Distinct(all), e.oldConfig, e.newConfig, k);
  }

  /** `is_changed(key)`. */
  function IsChanged(e: ConfigChangeEvent, key: string): (b: bool)
    ensures b <==> (key in Keys(e.oldConfig) || key in Keys(e.newConfig)) && !PyEq(Get(e.oldConfig, key), Get(e.newConfig, key))
  {
    ChangedKeysMeaning(e, key);
    key in ChangedKeys(e)
  }

  /** Rereading an unchanged file changes no key. */
  lemma UnchangedFile(path: string, c: Config)
    ensures ChangedKeys(ConfigChangeEvent(path, c, c)) == []
  {
    var r := ChangedKeys(ConfigChangeEvent(path, c, c));
    if r != [] {
      ChangedKeysMeaning(ConfigChangeEvent(path, c, c), r[0]);
      PyEqReflexive(Get(c, r[0]));
      assert false;
    }
  }

  /** Swapping the two readings changes the same keys. */
  lemma ChangedKeysSymmetric(path: string, a: Config, b: Config, k: string)
    ensures k in ChangedKeys(ConfigChangeEvent(path, a, b)) <==> k in ChangedKeys(ConfigChangeEvent(path, b, a))
  {
    ChangedKeysMeaning(ConfigChangeEvent(path, a, b), k);
    ChangedKeysMeaning(ConfigChangeEvent(path, b, a), k);
    if PyEq(Get(a, k), Get(b, k)) {
      PyEqSymmetric(Get(a, k), Get(b, k));
    }
    if PyEq(Get(b, k), Get(a, k)) {
      PyEqSymmetric(Get(b, k), Get(a, k));
    }
  }

  /** A key written as null in one reading and absent from the other is not
      a change, and neither is `true` against `1`. */
  lemma NullMatchesMissing(path: string, k: string)
    ensures !IsChanged(ConfigChangeEvent(path, [(k, JNull)], []), k)
    ensures !IsChanged(ConfigChangeEvent(path, [(k, JBool(true))], [(k, JNum(1.0))]), k)
  {
  }

  /** A registered callable, named by a string that stands for its identity
      (Python compares functions by identity). */
  type Handle = string

  /** One callback invocation: a global callback receives the event, a
      keyed one the key's old and new value. */
  datatype Call = GlobalCall(cb: Handle, event: ConfigChangeEvent)
                | KeyCall(cb: Handle, key: string, before: Json, after: Json)

  /** The callbacks registered under `key`. */
  function Registered(callbacks: map<string, seq<Handle>>, key: string): seq<Handle> {
    if key in callbacks then callbacks[key] else []
  }

  function GlobalCalls(globals: seq<Handle>, e: ConfigChangeEvent): (cs: seq<Call>)
    ensures |cs| == |globals| && forall i :: 0 <= i < |cs| ==> cs[i] == GlobalCall(globals[i], e)
  {
    seq(|globals|, i requires 0 <= i < |globals| => GlobalCall(globals[i], e))
  }

  function CallsFor(callbacks: map<string, seq<Handle>>, e: ConfigChangeEvent, key: string): (cs: seq<Call>)
    ensures |cs| == |Registered(callbacks, key)|
    ensures forall i :: 0 <= i < |cs| ==>
              cs[i] == KeyCall(Registered(callbacks, key)[i], key, Get(e.oldConfig, key), Get(e.newConfig, key))
  {
    var cbs := Registered(callbacks, key);
    seq(|cbs|, i requires 0 <= i < |cbs| => KeyCall(cbs[i], key, Get(e.oldConfig, key), Get(e.newConfig, key)))
  }

  function KeyCalls(callbacks: map<string, seq<Handle>>, e: ConfigChangeEvent, keys: seq<string>): seq<Call> {
    if keys == [] then [] else KeyCalls(callbacks, e, keys[..|keys| - 1]) + CallsFor(callbacks, e, keys[|keys| - 1])
  }

  /** The dispatch part of `_handle_file_change`: nothing when no key
      changed; otherwise every global callback with the event, then every
      callback of each changed key with its old and new value. */
  function Notified(e: ConfigChangeEvent, globals: seq<Handle>, callbacks: map<string, seq<Handle>>): seq<Call> {
    var ks := ChangedKeys(e);
    if ks == [] then [] else GlobalCalls(globals, e) + KeyCalls(callbacks, e, ks)
  }

  /** Every keyed call is for a key in `keys`, by a callback registered
      under it, with that key's old and new value. */
  lemma {:induction false} KeyCallsSound(callbacks: map<string, seq<Handle>>, e: ConfigChangeEvent,
                                         keys: seq<string>, c: Call)
    requires c in KeyCalls(callbacks, e, keys)
    ensures c.KeyCall? && c.key in keys && c.cb in Registered(callbacks, c.key)
    ensures c.before == Get(e.oldConfig, c.key) && c.after == Get(e.newConfig, c.key)
  {
    var n := |keys|;
    if c in KeyCalls(callbacks, e, keys[..n - 1]) {
      KeyCallsSound(callbacks, e, keys[..n - 1], c);
    } else {
      var cs := CallsFor(callbacks, e, keys[n - 1]);
      assert c in cs;
      var i :| 0 <= i < |cs| && cs[i] == c;
    }
  }

  /** Every callback of a key in `keys` is called for it. */
  lemma {:induction false} KeyCallsComplete(callbacks: map<string, seq<Handle>>, e: ConfigChangeEvent,
                                            keys: seq<string>, key: string, cb: Handle)
    requires key in keys && cb in Registered(callbacks, key)
    ensures KeyCall(cb, key, Get(e.oldConfig, key), Get(e.newConfig, key)) in KeyCalls(callbacks, e, keys)
  {
    var n := |keys|;
    if key == keys[n - 1] {
      var i :| 0 <= i < |Registered(callbacks, key)| && Registered(callbacks, key)[i] == cb;
      assert CallsFor(callbacks, e, key)[i] == KeyCall(cb, key, Get(e.oldConfig, key), Get(e.newConfig, key));
    } else {
      assert key in keys[..n - 1];
      KeyCallsComplete(callbacks, e, keys[..n - 1], key, cb);
    }
  }

  /** An unchanged file notifies nobody. A change reaches every global
      callback first, in registration order, and then exactly the callbacks
      of the changed keys, each with the key's old and new value. */
  lemma NotifiedFacts(e: ConfigChangeEvent, globals: seq<Handle>, callbacks: map<string, seq<Handle>>)
    ensures e.oldConfig == e.newConfig ==> Notified(e, globals, callbacks) == []
    ensures ChangedKeys(e) != [] ==> Notified(e, globals, callbacks)[..|globals|] == GlobalCalls(globals, e)
    ensures ChangedKeys(e) != [] ==>
              forall c :: c in Notified(e, globals, callbacks)[|globals|..] ==>
                c.KeyCall? && IsChanged(e, c.key) && c.cb in Registered(callbacks, c.key)
                && c.before == Get(e.oldConfig, c.key) && c.after == Get(e.newConfig, c.key)
    ensures forall k, cb :: IsChanged(e, k) && cb in Registered(callbacks, k) ==>
              KeyCall(cb, k, Get(e.oldConfig, k), Get(e.newConfig, k)) in Notified(e, globals, callbacks)
  {
    if e.oldConfig == e.newConfig {
      UnchangedFile(e.path, e.oldConfig);
    }
    var ks := ChangedKeys(e);
    if ks != [] {
      var n := Notified(e, globals, callbacks);
      assert n[|globals|..] == KeyCalls(callbacks, e, ks);
      forall c | c in n[|globals|..] ensures c.KeyCall? && IsChanged(e, c.key) && c.cb in Registered(callbacks, c.key)
          && c.before == Get(e.oldConfig, c.key) && c.after == Get(e.newConfig, c.key) {
        KeyCallsSound(callbacks, e, ks, c);
      }
    }
    forall k, cb | IsChanged(e, k) && cb in Registered(callbacks, k)
      ensures KeyCall(cb, k, Get(e.oldConfig, k), Get(e.newConfig, k)) in Notified(e, globals, callbacks)
    {
      KeyCallsComplete(callbacks, e, ks, k, cb);
    }
  }

  /** The reading `_handle_file_change` stores for `path`, and the event it
      dispatches: nothing for an unwatched or unreadable file. */
  function Handled(watched: map<string, Config>, path: string, read: string -> Option<Config>)
    : (map<string, Config>, Option<ConfigChangeEvent>)
  {
    if path !in watched || read(path).None? then (watched, None)
    else (watched[path := read(path).value], Some(ConfigChangeEvent(path, watched[path], read(path).value)))
  }

  /** The callback invocations `_handle_file_change` makes. */
  function HandledCalls(watched: map<string, Config>, path: string, read: string -> Option<Config>,
                        globals: seq<Handle>, callbacks: map<string, seq<Handle>>): seq<Call>
  {
    var e := Handled(watched, path, read).1;
    if e.Some? then Notified(e.value, globals, callbacks) else []
  }

  /** `_process_pending_changes` over `paths`: the readings kept afterwards
      and the callback invocations, path after path. */
  function Processed(watched: map<string, Config>, paths: seq<string>, read: string -> Option<Config>,
                     globals: seq<Handle>, callbacks: map<string, seq<Handle>>): (map<string, Config>, seq<Call>)
  {
    if paths == [] then (watched, [])
    else
      var (w, log) := Processed(watched, paths[..|paths| - 1], read, globals, callbacks);
      (Handled(w, paths[|paths| - 1], read).0, log + HandledCalls(w, paths[|paths| - 1], read, globals, callbacks))
  }

  /** One more path for `_process_pending_changes`. */
  lemma ProcessedStep(watched: map<string, Config>, paths: seq<string>, i: nat, read: string -> Option<Config>,
                      globals: seq<Handle>, callbacks: map<string, seq<Handle>>)
    requires i < |paths|
    ensures var before := Processed(watched, paths[..i], read, globals, callbacks);
            && Processed(watched, paths[..i + 1], read, globals, callbacks).0 == Handled(before.0, paths[i], read).0
            && Processed(watched, paths[..i + 1], read, globals, callbacks).1
               == before.1 + HandledCalls(before.0, paths[i], read, globals, callbacks)
  {
    assert paths[..i + 1][..i] == paths[..i];
  }

  /** Processing never starts or stops watching a file; each processed
      watched file that could be read keeps its new reading, and every
      other file keeps its old one. */
  lemma {:induction false} ProcessedReadings(watched: map<string, Config>, paths: seq<string>,
                                             read: string -> Option<Config>, globals: seq<Handle>,
                                             callbacks: map<string, seq<Handle>>)
    ensures var w := Processed(watched, paths, read, globals, callbacks).0;
            && w.Keys == watched.Keys
            && (forall p :: p in watched && p in paths && read(p).Some? ==> w[p] == read(p).value)
            && (forall p :: p in watched && (p !in paths || read(p).None?) ==> w[p] == watched[p])
  {
    if paths != [] {
      var n := |paths|;
      ProcessedReadings(watched, paths[..n - 1], read, globals, callbacks);
      forall p | p in paths ensures p in paths[..n - 1] || p == paths[n - 1] {
        var i :| 0 <= i < n && paths[i] == p;
        if i < n - 1 {
          assert paths[..n - 1][i] == p;
        }
      }
    }
  }

  /** `ConfigWatcher`. `files` are the paths the file-system watcher holds;
      `log` records the callback invocations. */
  class ConfigWatcher {
    var watched: map<string, Config>
    var files: set<string>
    var callbacks: map<string, seq<Handle>>
    var globalCallbacks: seq<Handle>
    var pending: seq<string>
    var log: seq<Call>

    /** The queue of changed paths has no repeats. */
    predicate Valid()
      reads this
    {
      NoDup(pending)
    }

    constructor ()
      ensures Valid() && watched == map[] && files == {} && callbacks == map[] && globalCallbacks == []
      ensures pending == [] && log == []
    {
      watched, files, callbacks, globalCallbacks, pending, log := map[], {}, map[], [], [], [];
    }

    /** `watch(file_path)` where `absPath` is its absolute path, `present`
        whether the file exists, `loaded` its parsed content (None when it
        cannot be read or parsed) and `added` the file-system watcher's
        answer to `addPath`. */
    method Watch(absPath: string, present: bool, loaded: Option<Config>, added: bool) returns (ok: bool)
      modifies this`watched, this`files
      ensures !present ==> !ok && watched == old(watched) && files == old(files)
      ensures present && absPath in old(watched) ==> ok && watched == old(watched) && files == old(files)
      ensures present && absPath !in old(watched) ==>
                && ok == added
                && watched == (if added then old(watched)[absPath := loaded.GetOr([])] else old(watched))
                && files == (if added then old(files) + {absPath} else old(files))
    {
      if !present {
        return false;
      }
      if absPath in watched {
        return true;
      }
      watched := watched[absPath := loaded.GetOr([])];
      if added {
        files := files + {absPath};
        return true;
      }
      watched := watched - {absPath};
      return false;
    }

    /** `unwatch(file_path)` where `absPath` is its absolute path. */
    method Unwatch(absPath: string) returns (ok: bool)
      modifies this`watched, this`files
      ensures ok <==> absPath in old(watched)
      ensures ok ==> watched == old(watched) - {absPath} && files == old(files) - {absPath}
      ensures !ok ==> watched == old(watched) && files == old(files)
    {
      if absPath !in watched {
        return false;
      }
      files := files - {absPath};
      watched := watched - {absPath};
      return true;
    }

    /** `register_callback(callback, key)`: appended to the global list when
        there is no key, else to the key's list. */
    method RegisterCallback(cb: Handle, key: Option<string>)
      modifies this`callbacks, this`globalCallbacks
      ensures key.None? ==> globalCallbacks == old(globalCallbacks) + [cb] && callbacks == old(callbacks)
      ensures key.Some? ==>
                && callbacks == old(callbacks)[key.value := Registered(old(callbacks), key.value) + [cb]]
                && globalCallbacks == old(globalCallbacks)
    {
      if key.None? {
        globalCallbacks := globalCallbacks + [cb];
      } else {
        callbacks := callbacks[key.value := Registered(callbacks, key.value) + [cb]];
      }
    }

    /** `unregister_callback(callback, key)`: removes the first occurrence
        when there is one, and otherwise changes nothing. */
    method UnregisterCallback(cb: Handle, key: Option<string>)
      modifies this`callbacks, this`globalCallbacks
      ensures key.None? ==>
                && callbacks == old(callbacks)
                && globalCallbacks == (if cb in old(globalCallbacks)
                                       then KnowledgeIndex.RemoveFirst(old(globalCallbacks), cb)
                                       else old(globalCallbacks))
      ensures key.Some? ==>
                && globalCallbacks == old(globalCallbacks)
                && callbacks == (if cb in Registered(old(callbacks), key.value)
                                 then old(callbacks)[key.value := KnowledgeIndex.RemoveFirst(old(callbacks)[key.value], cb)]
                                 else old(callbacks))
    {
      if key.None? {
        if cb in globalCallbacks {
          globalCallbacks := KnowledgeIndex.RemoveFirst(globalCallbacks, cb);
        }
      } else if key.value in callbacks && cb in callbacks[key.value] {
        callbacks := callbacks[key.value := KnowledgeIndex.RemoveFirst(callbacks[key.value], cb)];
      }
    }

    /** `_on_file_changed(path)`: queues the path unless it is queued
        already, and asks the file-system watcher to hold it again when it
        no longer does; `added` is the watcher's answer to `addPath`. */
    method OnFileChanged(path: string, added: bool)
      requires Valid()
      modifies this`pending, this`files
      ensures Valid()
      ensures pending == (if path in old(pending) then old(pending) else old(pending) + [path])
      ensures files == if path !in old(files) && added then old(files) + {path} else old(files)
    {
      pending := KnowledgeIndex.AppendOnce(pending, path);
      if path !in files && added {
        files := files + {path};
      }
    }

    /** The first dispatch loop of `_handle_file_change`: every global
        callback, in order, with the event. */
    method NotifyGlobals(e: ConfigChangeEvent)
      modifies this`log
      ensures log == old(log) + GlobalCalls(globalCallbacks, e)
    {
      var i := 0;
      while i < |globalCallbacks|
        invariant 0 <= i <= |globalCallbacks|
        invariant log == old(log) + GlobalCalls(globalCallbacks, e)[..i]
      {
        log := log + [GlobalCall(globalCallbacks[i], e)];
        assert GlobalCalls(globalCallbacks, e)[..i + 1] == GlobalCalls(globalCallbacks, e)[..i]
                                                          + [GlobalCall(globalCallbacks[i], e)];
        i := i + 1;
      }
      assert GlobalCalls(globalCallbacks, e)[..i] == GlobalCalls(globalCallbacks, e);
    }

    /** The inner dispatch loop of `_handle_file_change`: every callback of
        `key`, in order, with the key's old and new value. */
    method NotifyKey(e: ConfigChangeEvent, key: string)
      modifies this`log
      ensures log == old(log) + CallsFor(callbacks, e, key)
    {
      var cbs := Registered(callbacks, key);
      var j := 0;
      while j < |cbs|
        invariant 0 <= j <= |cbs|
        invariant log == old(log) + CallsFor(callbacks, e, key)[..j]
      {
        log := log + [KeyCall(cbs[j], key, Get(e.oldConfig, key), Get(e.newConfig, key))];
        assert CallsFor(callbacks, e, key)[..j + 1] == CallsFor(callbacks, e, key)[..j]
                                                      + [KeyCall(cbs[j], key, Get(e.oldConfig, key), Get(e.newConfig, key))];
        j := j + 1;
      }
      assert CallsFor(callbacks, e, key)[..j] == CallsFor(callbacks, e, key);
    }

    /** The outer dispatch loop of `_handle_file_change`: the callbacks of
        each key in `keys`, key after key. */
    method NotifyKeys(e: ConfigChangeEvent, changed: seq<string>)
      modifies this`log
      ensures log == old(log) + KeyCalls(callbacks, e, changed)
    {
      var k := 0;
      while k < |changed|
        invariant 0 <= k <= |changed|
        invariant log == old(log) + KeyCalls(callbacks, e, changed[..k])
      {
        assert changed[..k + 1][..k] == changed[..k];
        assert KeyCalls(callbacks, e, changed[..k + 1])
            == KeyCalls(callbacks, e, changed[..k]) + CallsFor(callbacks, e, changed[k]);
        NotifyKey(e, changed[k]);
        k := k + 1;
      }
      assert changed[..k] == changed;
    }

    /** `_handle_file_change(path)`, where `read` gives a file's parsed
        content (None when reading or parsing fails). */
    method HandleFileChange(path: string, read: string -> Option<Config>)
      modifies this`watched, this`log
      ensures watched == Handled(old(watched), path, read).0
      ensures log == old(log) + HandledCalls(old(watched), path, read, globalCallbacks, callbacks)
    {
      if path !in watched {
        assert HandledCalls(watched, path, read, globalCallbacks, callbacks) == [];
        return;
      }
      var loaded := read(path);
      if loaded.None? {
        assert HandledCalls(watched, path, read, globalCallbacks, callbacks) == [];
        return;
      }
      var e := ConfigChangeEvent(path, watched[path], loaded.value);
      ghost var calls := Notified(e, globalCallbacks, callbacks);
      assert HandledCalls(watched, path, read, globalCallbacks, callbacks) == calls;
      watched := watched[path := loaded.value];
      var changed := ChangedKeys(e);
      if changed == [] {
        assert calls == [];
        return;
      }
      Dispatch(e, changed);
    }

    /** The dispatch of a change: the global callbacks, then the callbacks
        of each changed key. */
    method Dispatch(e: ConfigChangeEvent, changed: seq<string>)
      requires changed == ChangedKeys(e) && changed != []
      modifies this`log
      ensures log == old(log) + Notified(e, globalCallbacks, callbacks)
    {
      NotifyGlobals(e);
      NotifyKeys(e, changed);
      assert log == old(log) + GlobalCalls(globalCallbacks, e) + KeyCalls(callbacks, e, changed);
    }

    /** `_process_pending_changes`, where `read` gives a file's parsed
        content: empties the queue and handles each queued path once, in
        queue order. */
    method ProcessPendingChanges(read: string -> Option<Config>)
      modifies this`watched, this`log, this`pending
      ensures pending == []
      ensures watched == Processed(old(watched), old(pending), read, globalCallbacks, callbacks).0
      ensures log == old(log) + Processed(old(watched), old(pending), read, globalCallbacks, callbacks).1
    {
      var paths := pending;
      pending := [];
      ghost var start := log;
      var i := 0;
      while i < |paths|
        invariant 0 <= i <= |paths| && pending == []
        invariant watched == Processed(old(watched), paths[..i], read, globalCallbacks, callbacks).0
        invariant log == start + Processed(old(watched), paths[..i], read, globalCallbacks, callbacks).1
      {
        ghost var before := Processed(old(watched), paths[..i], read, globalCallbacks, callbacks);
        ghost var calls := HandledCalls(watched, paths[i], read, globalCallbacks, callbacks);
        ProcessedStep(old(watched), paths, i, read, globalCallbacks, callbacks);
        HandleFileChange(paths[i], read);
        assert log == start + before.1 + calls;
        AppendAssociative(start, before.1, calls);
        i := i + 1;
      }
      assert paths[..i] == paths;
    }
  }
}
