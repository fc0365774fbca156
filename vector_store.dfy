/** The bookkeeping layer of the vector store (core/vector_store.py): the maps
    between internal ids and knowledge ids, the id counter, the choice of
    index type, the training state of an IVF index with its buffer of pending
    vectors, and the guards around search. The native index is abstracted to
    the list of (label, internal id) pairs it holds; its numerics are oracles. */
module VectorIndex {
  import opened Wrappers
  import opened PyText
  import opened Ranking

  type Vec = seq<real>

  const DefaultDimension: nat := 1024
  const IvfThreshold: nat := 1000
  const HnswThreshold: nat := 50000
  const MinTrainSize: nat := 39

  datatype IndexKind = Flat | Ivf | Hnsw

  datatype Operation = AddVectorOp | SearchOp

  /** The only error the store records: `{"type": "dimension_mismatch", ...}`. */
  datatype IndexError = DimensionMismatch(expected: nat, actual: nat, op: Operation)

  /** One vector held by the native index: the label the index reports for it
      in search hits, and the internal id it was added under. */
  datatype Stored = Stored(faissId: int, internalId: nat)

  /** The whole state of a store. `native` stands for the FAISS index, whose
      `ntotal` is `|native|`. */
  datatype Store = Store(
    dimension: nat,
    kind: IndexKind,
    nlist: nat,
    trained: bool,
    idMap: map<nat, string>,
    reverseMap: map<string, nat>,
    nextId: nat,
    builtModel: Option<string>,
    lastError: Option<IndexError>,
    pending: seq<(nat, Vec)>,
    native: seq<Stored>)

  function Get<K, V>(m: map<K, V>, k: K): (r: Option<V>)
    ensures r.Some? <==> k in m
    ensures r.Some? ==> r.value == m[k]
  {
    if k in m then Some(m[k]) else None
  }

  function Max(a: int, b: int): int {
    if a < b then b else a
  }

  function Min(a: int, b: int): int {
    if a < b then a else b
  }

  predicate MapsInverse(idMap: map<nat, string>, reverseMap: map<string, nat>) {
    && (forall n :: n in idMap ==> idMap[n] in reverseMap && reverseMap[idMap[n]] == n)
    && (forall k :: k in reverseMap ==> reverseMap[k] in idMap && idMap[reverseMap[k]] == k)
  }

  /** The invariant every operation keeps: the two maps are mutual inverses,
      every internal id in use is below the counter (so none is handed out
      twice), only an untrained IVF index buffers vectors and it holds none
      natively, and the native labels are internal ids for the flat index and
      positions otherwise. */
  ghost predicate Consistent(s: Store) {
    && MapsInverse(s.idMap, s.reverseMap)
    && (forall n :: n in s.idMap ==> n < s.nextId)
    && (forall j :: 0 <= j < |s.pending| ==> s.pending[j].0 < s.nextId)
    && (forall j :: 0 <= j < |s.native| ==> s.native[j].internalId < s.nextId)
    && (s.pending != [] ==> s.kind == Ivf && !s.trained)
    && (s.kind != Ivf ==> s.trained)
    && (s.kind == Ivf && !s.trained ==> s.native == [])
    && (forall j :: 0 <= j < |s.native| ==>
          s.native[j].faissId == if s.kind == Flat then s.native[j].internalId else j)
  }

  // ---------------------------------------------------------------------
  // _create_index

  /** The automatic choice of index type for an expected number of vectors. */
  function SelectKind(expected: int): (k: IndexKind)
    ensures k == Hnsw <==> expected >= HnswThreshold
    ensures k == Ivf <==> IvfThreshold <= expected < HnswThreshold
    ensures k == Flat <==> expected < IvfThreshold
  {
    if expected >= HnswThreshold then Hnsw else if expected >= IvfThreshold then Ivf else Flat
  }

  /** `int(np.sqrt(n))`: the integer square root. */
  function ISqrt(n: nat): (r: nat)
    ensures r * r <= n < (r + 1) * (r + 1)
  {
    if n < 4 then (if n == 0 then 0 else 1)
    else
      var m := n / 4;
      var h := ISqrt(m);
      var r := 2 * h;
      assert 4 * m <= n < 4 * m + 4;
      DoubleSquare(h);
      DoubleSquare(h + 1);
      assert r * r <= n;
      assert n < (r + 2) * (r + 2);
      if (r + 1) * (r + 1) <= n then r + 1 else r
  }

  lemma DoubleSquare(x: int)
    ensures (2 * x) * (2 * x) == 4 * (x * x)
  {
  }

  /** The number of IVF clusters: `max(16, min(256, isqrt(max(expected, 1000))))`. */
  function NList(expected: int): (r: nat)
    ensures 16 <= r <= 256
  {
    Max(16, Min(256, ISqrt(Max(expected, 1000))))
  }

  /** `_create_index`: a fresh, empty native index of the requested (or
      automatically chosen) type; the maps and the counter are kept. `model`
      is the configured embedding model, recorded when there is one. */
  function Created(s: Store, dim: nat, model: Option<string>, requested: Option<IndexKind>, expected: int): Store {
    var kind := if requested.Some? then requested.value else SelectKind(expected);
    s.(dimension := dim, kind := kind, nlist := NList(expected), trained := kind != Ivf,
       builtModel := if model.Some? then model else s.builtModel, pending := [], native := [])
  }

  lemma CreatedFacts(s: Store, dim: nat, model: Option<string>, requested: Option<IndexKind>, expected: int)
    requires Consistent(s)
    ensures var t := Created(s, dim, model, requested, expected);
            && Consistent(t)
            && t.dimension == dim
            && t.native == [] && t.pending == []
            && (t.trained <==> t.kind != Ivf)
            && (requested.None? ==> t.kind == SelectKind(expected))
            && t.idMap == s.idMap && t.reverseMap == s.reverseMap && t.nextId == s.nextId
  {
  }

  // ---------------------------------------------------------------------
  // remove_vector

  /** The native entries left after the flat index removes the ids in `ns`. */
  function DropIds(native: seq<Stored>, ns: set<nat>): (r: seq<Stored>)
    ensures forall e :: e in r <==> e in native && e.faissId !in ns
  {
    if native == [] then []
    else (if native[0].faissId in ns then [] else [native[0]]) + DropIds(native[1..], ns)
  }

  /** The pending buffer without the vectors whose internal id is in `ns`. */
  function DropInternal(pending: seq<(nat, Vec)>, ns: set<nat>): (r: seq<(nat, Vec)>)
    ensures forall e :: e in r <==> e in pending && e.0 !in ns
  {
    if pending == [] then []
    else (if pending[0].0 in ns then [] else [pending[0]]) + DropInternal(pending[1..], ns)
  }

  /** `remove_vector(id)`: false for an unknown id; otherwise the id leaves
      both maps and the pending buffer, and the flat index drops its vector
      (the other index types keep the vector and only forget its id). */
  function Removed(s: Store, id: string): (Store, bool) {
    if id !in s.reverseMap then (s, false)
    else
      var n := s.reverseMap[id];
      (s.(native := if s.kind == Flat then DropIds(s.native, {n}) else s.native,
          pending := DropInternal(s.pending, {n}),
          idMap := s.idMap - {n},
          reverseMap := s.reverseMap - {id}), true)
  }

  lemma DropIdsKeepsIdentity(native: seq<Stored>, ns: set<nat>)
    requires forall j :: 0 <= j < |native| ==> native[j].faissId == native[j].internalId
    ensures forall j :: 0 <= j < |DropIds(native, ns)| ==>
              DropIds(native, ns)[j].faissId == DropIds(native, ns)[j].internalId
  {
    var r := DropIds(native, ns);
    forall j | 0 <= j < |r| ensures r[j].faissId == r[j].internalId {
      assert r[j] in r;
      assert r[j] in native;
    }
  }

  lemma RemovedFacts(s: Store, id: string)
    requires Consistent(s)
    ensures var (t, ok) := Removed(s, id);
            && Consistent(t)
            && (ok <==> id in s.reverseMap)
            && (!ok ==> t == s)
            && (ok ==> t.idMap == s.idMap - {s.reverseMap[id]}
                       && t.reverseMap == s.reverseMap - {id}
                       && (forall e :: e in t.pending <==> e in s.pending && e.0 != s.reverseMap[id]))
            && t.nextId == s.nextId && t.kind == s.kind && t.trained == s.trained
            && t.dimension == s.dimension && t.lastError == s.lastError
  {
    if id in s.reverseMap {
      var (t, _) := Removed(s, id);
      var n := s.reverseMap[id];
      if s.kind == Flat {
        DropIdsKeepsIdentity(s.native, {n});
      }
      if t.pending != [] {
        assert t.pending[0] in s.pending;
      }
      forall j | 0 <= j < |t.pending| ensures t.pending[j].0 < t.nextId {
        assert t.pending[j] in s.pending;
      }
      forall j | 0 <= j < |t.native| ensures t.native[j].internalId < t.nextId {
        assert t.native[j] in s.native;
      }
      if s.kind != Flat {
        assert t.native == s.native;
      }
    }
  }

  // ---------------------------------------------------------------------
  // remove_vectors_by_prefix

  /** The internal ids of the given knowledge ids. */
  function IdsOf(reverseMap: map<string, nat>, keys: set<string>): set<nat>
    requires keys <= reverseMap.Keys
  {
    set k | k in keys :: reverseMap[k]
  }

  /** The store after every id in `keys` has been removed. */
  function RemovedAll(s: Store, keys: set<string>): Store
    requires keys <= s.reverseMap.Keys
  {
    var ns := IdsOf(s.reverseMap, keys);
    s.(native := if s.kind == Flat then DropIds(s.native, ns) else s.native,
       pending := DropInternal(s.pending, ns),
       idMap := s.idMap - ns,
       reverseMap := s.reverseMap - keys)
  }

  /** The ids `remove_vectors_by_prefix(p)` removes: those equal to `p` or
      starting with it. */
  function PrefixKeys(s: Store, p: string): set<string> {
    MatchingKeys(s.reverseMap.Keys, p)
  }

  /** The keys among `keys` equal to `p` or starting with it. */
  function MatchingKeys(keys: set<string>, p: string): (r: set<string>)
    ensures r <= keys
  {
    set k | k in keys && (k == p || StartsWith(k, p))
  }

  /** Moving `k` out of the keys still to visit adds it to the matching
      keys visited exactly when it matches. */
  lemma MatchingStep(keys: set<string>, rest: set<string>, k: string, p: string)
    requires k in rest && rest <= keys
    ensures k !in MatchingKeys(keys - rest, p)
    ensures MatchingKeys(keys - (rest - {k}), p)
            == MatchingKeys(keys - rest, p) + (if k == p || StartsWith(k, p) then {k} else {})
  {
  }

  /** `remove_vectors_by_prefix(p)`: nothing for an empty prefix; otherwise
      every id with the prefix is removed and their number returned. */
  function RemovedByPrefix(s: Store, p: string): (Store, nat) {
    if p == "" then (s, 0)
    else
      var keys := PrefixKeys(s, p);
      (RemovedAll(s, keys), |keys|)
  }

  lemma {:induction false} DropInternalTwice(pending: seq<(nat, Vec)>, a: set<nat>, b: set<nat>)
    ensures DropInternal(DropInternal(pending, a), b) == DropInternal(pending, a + b)
  {
    if pending != [] {
      DropInternalTwice(pending[1..], a, b);
      var x := DropInternal(pending[1..], a);
      if pending[0].0 in a {
        assert DropInternal(pending, a) == x;
      } else {
        var y := [pending[0]] + x;
        assert DropInternal(pending, a) == y;
        assert y[0] == pending[0] && y[1..] == x;
        assert DropInternal(y, b) == (if pending[0].0 in b then [] else [pending[0]]) + DropInternal(x, b);
      }
    }
  }

  lemma {:induction false} DropIdsTwice(native: seq<Stored>, a: set<nat>, b: set<nat>)
    ensures DropIds(DropIds(native, a), b) == DropIds(native, a + b)
  {
    if native != [] {
      DropIdsTwice(native[1..], a, b);
      var x := DropIds(native[1..], a);
      if native[0].faissId in a {
        assert DropIds(native, a) == x;
      } else {
        var y := [native[0]] + x;
        assert DropIds(native, a) == y;
        assert y[0] == native[0] && y[1..] == x;
        assert DropIds(y, b) == (if native[0].faissId in b then [] else [native[0]]) + DropIds(x, b);
      }
    }
  }

  lemma RemovedAllEmpty(s: Store)
    ensures RemovedAll(s, {}) == s
  {
    assert IdsOf(s.reverseMap, {}) == {};
    DropInternalNone(s.pending);
    DropIdsNone(s.native);
    var r := RemovedAll(s, {});
    assert r.idMap == s.idMap - {} == s.idMap;
    assert r.reverseMap == s.reverseMap - {} == s.reverseMap;
    assert r.native == s.native && r.pending == s.pending;
  }

  lemma {:induction false} DropInternalNone(pending: seq<(nat, Vec)>)
    ensures DropInternal(pending, {}) == pending
  {
    if pending != [] {
      DropInternalNone(pending[1..]);
    }
  }

  lemma {:induction false} DropIdsNone(native: seq<Stored>)
    ensures DropIds(native, {}) == native
  {
    if native != [] {
      DropIdsNone(native[1..]);
    }
  }

  /** Removing one more id from a store that has lost `done` is removing
      `done` and that id together. */
  lemma RemovedAllStep(s: Store, done: set<string>, k: string)
    requires Consistent(s) && done <= s.reverseMap.Keys && k in s.reverseMap && k !in done
    ensures k in RemovedAll(s, done).reverseMap
    ensures Removed(RemovedAll(s, done), k) == (RemovedAll(s, done + {k}), true)
  {
    var t := RemovedAll(s, done);
    var n := s.reverseMap[k];
    assert IdsOf(s.reverseMap, done + {k}) == IdsOf(s.reverseMap, done) + {n};
    DropInternalTwice(s.pending, IdsOf(s.reverseMap, done), {n});
    DropIdsTwice(s.native, IdsOf(s.reverseMap, done), {n});
    assert k in t.reverseMap && t.reverseMap[k] == n;
    var u := RemovedAll(s, done + {k});
    var (r, ok) := Removed(t, k);
    assert r.idMap == u.idMap;
    assert r.reverseMap == u.reverseMap;
    assert r.pending == u.pending;
    assert r.native == u.native;
  }

  lemma RemovedAllConsistent(s: Store, keys: set<string>)
    requires Consistent(s) && keys <= s.reverseMap.Keys
    ensures Consistent(RemovedAll(s, keys))
  {
    var t := RemovedAll(s, keys);
    var ns := IdsOf(s.reverseMap, keys);
    assert forall k :: k in keys ==> s.reverseMap[k] in ns;
    forall k | k in t.reverseMap ensures s.reverseMap[k] !in ns {
      forall k' | k' in keys ensures s.reverseMap[k'] != s.reverseMap[k] {
        assert s.idMap[s.reverseMap[k']] == k';
      }
    }
    if s.kind == Flat {
      DropIdsKeepsIdentity(s.native, ns);
    } else {
      assert t.native == s.native;
    }
    if t.pending != [] {
      assert t.pending[0] in s.pending;
    }
    forall j | 0 <= j < |t.pending| ensures t.pending[j].0 < t.nextId {
      assert t.pending[j] in s.pending;
    }
    forall j | 0 <= j < |t.native| ensures t.native[j].internalId < t.nextId {
      assert t.native[j] in s.native;
    }
  }

  /** An empty prefix removes nothing; otherwise exactly the ids with the
      prefix are gone, their count is returned, and the store stays consistent. */
  lemma RemovedByPrefixFacts(s: Store, p: string)
    requires Consistent(s)
    ensures var (t, count) := RemovedByPrefix(s, p);
            && Consistent(t)
            && (p == "" ==> t == s && count == 0)
            && (p != "" ==> count == |set k | k in s.reverseMap && StartsWith(k, p)|)
            && (p != "" ==> forall k :: k in t.reverseMap <==> k in s.reverseMap && !StartsWith(k, p))
            && t.nextId == s.nextId
  {
    if p != "" {
      RemovedAllConsistent(s, PrefixKeys(s, p));
      assert PrefixKeys(s, p) == set k | k in s.reverseMap && StartsWith(k, p) by {
        forall k | k == p ensures StartsWith(k, p) {
          assert k[..|p|] == k;
        }
      }
    }
  }

  // ---------------------------------------------------------------------
  // add_vector

  /** Where `add_vector` puts a vector under internal id `n`: the pending
      buffer of an untrained IVF index, the flat index under its own id, or
      the next position of the other indexes. */
  function Place(s: Store, n: nat, v: Vec): Store {
    if s.kind == Ivf && !s.trained then s.(pending := s.pending + [(n, v)])
    else if s.kind == Flat then s.(native := s.native + [Stored(n, n)])
    else s.(native := s.native + [Stored(|s.native|, n)])
  }

  /** The store `add_vector` places `v` into: recreated for a new
      dimension, then without an old record of `id`. */
  function Vacated(s: Store, id: string, v: Vec, model: Option<string>): Store {
    var s1 := if |v| != s.dimension then Created(s, |v|, model, None, 0) else s;
    Removed(s1, id).0
  }

  lemma VacatedFacts(s: Store, id: string, v: Vec, model: Option<string>)
    requires Consistent(s)
    ensures var c := Vacated(s, id, v, model);
            && Consistent(c)
            && c.nextId == s.nextId && s.nextId !in c.idMap && id !in c.reverseMap
            && c.dimension == |v| && c.lastError == s.lastError
            && c.reverseMap == s.reverseMap - {id}
            && c.idMap == (if id in s.reverseMap then s.idMap - {s.reverseMap[id]} else s.idMap)
            && (|v| != s.dimension ==> c.kind == Flat && c.pending == [] && c.native == [])
  {
    var s1 := if |v| != s.dimension then Created(s, |v|, model, None, 0) else s;
    if |v| != s.dimension {
      CreatedFacts(s, |v|, model, None, 0);
      assert s1.native == [] && s1.pending == [] && s1.kind == Flat;
    }
    assert s1.idMap == s.idMap && s1.reverseMap == s.reverseMap && s1.lastError == s.lastError;
    RemovedFacts(s1, id);
    if id !in s.reverseMap {
      assert s.reverseMap - {id} == s.reverseMap;
    }
  }

  /** The state after `add_vector` accepts `v` under `id`: the index is
      recreated first when the dimension differs, an old record of `id` is
      removed, and the vector is placed under the next internal id. */
  function Admitted(s: Store, id: string, v: Vec, model: Option<string>): Store {
    Inserted(Vacated(s, id, v, model), id, v)
  }

  /** `v` placed under the next internal id, which is then mapped to `id`. */
  function Inserted(s: Store, id: string, v: Vec): Store {
    var n := s.nextId;
    var s3 := Place(s.(nextId := n + 1), n, v);
    s3.(idMap := s3.idMap[n := id], reverseMap := s3.reverseMap[id := n])
  }

  /** `add_vector(id, v)`. An empty vector is refused. A vector of another
      dimension recreates an empty index at that dimension, and is refused
      with a recorded error when the index holds vectors. */
  function AddVectorSpec(s: Store, id: string, v: Vec, model: Option<string>): (Store, bool) {
    if v == [] then (s, false)
    else if |v| != s.dimension && |s.native| > 0 then
      (s.(lastError := Some(DimensionMismatch(s.dimension, |v|, AddVectorOp))), false)
    else (Admitted(s, id, v, model), true)
  }

  lemma BumpConsistent(s: Store)
    requires Consistent(s)
    ensures Consistent(s.(nextId := s.nextId + 1))
  {
  }

  lemma PlaceConsistent(s: Store, n: nat, v: Vec)
    requires Consistent(s) && n < s.nextId
    ensures Consistent(Place(s, n, v))
  {
  }

  lemma InsertConsistent(s: Store, n: nat, id: string)
    requires Consistent(s) && n !in s.idMap && id !in s.reverseMap && n < s.nextId
    ensures Consistent(s.(idMap := s.idMap[n := id], reverseMap := s.reverseMap[id := n]))
  {
  }

  /** The accepted case of `add_vector`. */
  lemma AdmittedFacts(s: Store, id: string, v: Vec, model: Option<string>)
    requires Consistent(s)
    ensures var t := Admitted(s, id, v, model);
            && Consistent(t)
            && s.nextId !in s.idMap
            && t.nextId == s.nextId + 1
            && t.dimension == |v|
            && t.reverseMap == (s.reverseMap - {id})[id := s.nextId]
            && t.idMap == (if id in s.reverseMap then s.idMap - {s.reverseMap[id]} else s.idMap)[s.nextId := id]
            && t.lastError == s.lastError
            && (|v| != s.dimension ==> t.kind == Flat && t.pending == [] && t.native == [Stored(s.nextId, s.nextId)])
            && (t.kind == Ivf && !t.trained ==> t.pending[|t.pending| - 1] == (s.nextId, v))
            && (t.kind != Ivf || t.trained ==> t.native[|t.native| - 1].internalId == s.nextId)
  {
    AdmittedConsistent(s, id, v, model);
    VacatedFacts(s, id, v, model);
  }

  lemma ErrorKeepsConsistent(s: Store, e: Option<IndexError>)
    requires Consistent(s)
    ensures Consistent(s.(lastError := e))
  {
  }

  lemma AdmittedConsistent(s: Store, id: string, v: Vec, model: Option<string>)
    requires Consistent(s)
    ensures Consistent(Admitted(s, id, v, model))
  {
    VacatedFacts(s, id, v, model);
    InsertedConsistent(Vacated(s, id, v, model), id, v);
  }

  lemma InsertedConsistent(s: Store, id: string, v: Vec)
    requires Consistent(s) && s.nextId !in s.idMap && id !in s.reverseMap
    ensures Consistent(Inserted(s, id, v))
  {
    var n := s.nextId;
    var s2 := s.(nextId := n + 1);
    BumpConsistent(s);
    PlaceConsistent(s2, n, v);
    var s3 := Place(s2, n, v);
    assert s3.idMap == s.idMap && s3.reverseMap == s.reverseMap && s3.nextId == n + 1;
    InsertConsistent(s3, n, id);
  }

  lemma AddVectorFacts(s: Store, id: string, v: Vec, model: Option<string>)
    requires Consistent(s)
    ensures var (t, ok) := AddVectorSpec(s, id, v, model);
            && Consistent(t)
            && (ok <==> v != [] && (|v| == s.dimension || |s.native| == 0))
            && (v == [] ==> t == s)
            && (!ok ==> t.idMap == s.idMap && t.reverseMap == s.reverseMap && t.nextId == s.nextId
                        && t.pending == s.pending && t.native == s.native)
            && (!ok && v != [] ==> t.lastError == Some(DimensionMismatch(s.dimension, |v|, AddVectorOp)))
  {
    if v != [] && (|v| == s.dimension || |s.native| == 0) {
      AdmittedFacts(s, id, v, model);
    }
  }

  // ---------------------------------------------------------------------
  // train_index

  /** The pending vectors as the IVF index numbers them when they are added
      after training: consecutive positions from `base`. */
  function Flushed(pending: seq<(nat, Vec)>, base: nat): (r: seq<Stored>)
    ensures |r| == |pending|
    ensures forall j :: 0 <= j < |r| ==> r[j] == Stored(base + j, pending[j].0)
  {
    seq(|pending|, j requires 0 <= j < |pending| => Stored(base + j, pending[j].0))
  }

  /** `train_index(vectors)`: nothing to do (success) unless the index is an
      untrained IVF one; fails without training data, or with fewer vectors
      than `max(nlist, 39)`; otherwise the index is trained and the pending
      vectors are moved into it. Only the number of training vectors matters. */
  function Trained(s: Store, vectors: Option<seq<Vec>>): (Store, bool) {
    if s.kind != Ivf || s.trained then (s, true)
    else if vectors.None? && s.pending == [] then (s, false)
    else
      var count := if vectors.Some? then |vectors.value| else |s.pending|;
      if count < Max(s.nlist, MinTrainSize) then (s, false)
      else (s.(trained := true, native := s.native + Flushed(s.pending, |s.native|), pending := []), true)
  }

  lemma TrainedFacts(s: Store, vectors: Option<seq<Vec>>)
    requires Consistent(s)
    ensures var (t, ok) := Trained(s, vectors);
            && Consistent(t)
            && (s.kind != Ivf || s.trained ==> ok && t == s)
            && (s.kind == Ivf && !s.trained && vectors.None? && s.pending == [] ==> !ok)
            && (s.kind == Ivf && !s.trained && vectors.Some? && |vectors.value| < Max(s.nlist, MinTrainSize) ==> !ok)
            && (s.kind == Ivf && !s.trained ==>
                  var count := if vectors.Some? then |vectors.value| else |s.pending|;
                  (ok <==> count >= Max(s.nlist, MinTrainSize)))
            && (!ok ==> t == s && !t.trained)
            && (ok ==> t.trained && t.pending == [])
            && (ok ==> forall j :: 0 <= j < |s.pending| ==> Stored(j, s.pending[j].0) in t.native)
            && t.idMap == s.idMap && t.reverseMap == s.reverseMap && t.nextId == s.nextId
  {
    var (t, ok) := Trained(s, vectors);
    if s.kind == Ivf && !s.trained && ok {
      assert s.native == [];
      forall j | 0 <= j < |s.pending| ensures Stored(j, s.pending[j].0) in t.native {
        assert t.native[j] == Stored(j, s.pending[j].0);
      }
    }
  }

  // ---------------------------------------------------------------------
  // search and _search_pending_vectors

  /** The knowledge id the code looks up for a label FAISS reports: the
      label itself is taken as the internal id. */
  function ResolveAsWritten(s: Store, faissId: int): Option<string> {
    if faissId >= 0 then Get(s.idMap, faissId) else None
  }

  /** The knowledge id of the vector FAISS reports under `faissId`: for the
      flat index the label is the internal id; for IVF and HNSW it is a
      position, whose internal id is the one stored there. */
  function Resolve(s: Store, faissId: int): Option<string> {
    if s.kind == Flat then ResolveAsWritten(s, faissId)
    else if 0 <= faissId < |s.native| then Get(s.idMap, s.native[faissId].internalId)
    else None
  }

  /** The result loop of `search` over the hits FAISS returned: hits with
      label -1 or without a (non-empty) knowledge id are skipped, and
      collection stops at `topK` results. */
  function Collect(s: Store, hits: seq<(int, real)>, topK: nat, asWritten: bool, acc: seq<(string, real)>): (r: seq<(string, real)>)
    ensures |acc| <= topK ==> |r| <= topK
    ensures |acc| >= topK ==> r == acc
    ensures acc <= r
    decreases |hits|
  {
    if hits == [] || |acc| >= topK then acc
    else
      var (faissId, dist) := hits[0];
      var kid := if faissId == -1 then None
                 else if asWritten then ResolveAsWritten(s, faissId) else Resolve(s, faissId);
      if kid.Some? && kid.value != "" then Collect(s, hits[1..], topK, asWritten, acc + [(kid.value, dist)])
      else Collect(s, hits[1..], topK, asWritten, acc)
  }

  /** The scored pending vectors that still have a knowledge id, in buffer order. */
  function PendingScores(pending: seq<(nat, Vec)>, idMap: map<nat, string>, q: Vec, score: (Vec, Vec) -> real): (r: seq<(string, real)>)
    ensures forall x :: x in r ==> x.0 in idMap.Values && x.0 != ""
    ensures |r| <= |pending|
  {
    if pending == [] then []
    else
      var (n, v) := pending[0];
      var head := if n in idMap && idMap[n] != "" then [(idMap[n], score(v, q))] else [];
      head + PendingScores(pending[1..], idMap, q, score)
  }

  /** `_search_pending_vectors`: the pending vectors ranked by descending score. */
  function SearchPending(s: Store, q: Vec, topK: nat, score: (Vec, Vec) -> real): seq<(string, real)> {
    if s.pending == [] then [] else Take(SortDesc(PendingScores(s.pending, s.idMap, q, score)), topK)
  }

  /** `search(q, top_k)` as written: the empty-index guard comes before the
      pending-buffer path, and labels are looked up as internal ids. `hits`
      are the (label, score) pairs FAISS returns for `k = min(2 top_k, ntotal)`. */
  function SearchAsWritten(s: Store, q: Vec, topK: nat, hits: seq<(int, real)>, score: (Vec, Vec) -> real): (r: seq<(string, real)>)
    ensures |r| <= topK
    ensures |s.native| == 0 ==> r == []
  {
    if q == [] || |q| != s.dimension then []
    else if |s.native| == 0 then []
    else if s.kind == Ivf && !s.trained then SearchPending(s, q, topK, score)
    else Collect(s, Take(hits, Min(2 * topK, |s.native|)), topK, true, [])
  }

  /** `search(q, top_k)` with the pending-buffer path taken before the
      empty-index guard and labels resolved through the stored entries. A
      query of the wrong length records a dimension-mismatch error. */
  function SearchSpec(s: Store, q: Vec, topK: nat, hits: seq<(int, real)>, score: (Vec, Vec) -> real): (Store, seq<(string, real)>) {
    if q == [] then (s, [])
    else if |q| != s.dimension then (s.(lastError := Some(DimensionMismatch(s.dimension, |q|, SearchOp))), [])
    else if s.kind == Ivf && !s.trained then (s, SearchPending(s, q, topK, score))
    else if |s.native| == 0 then (s, [])
    else (s, Collect(s, Take(hits, Min(2 * topK, |s.native|)), topK, false, []))
  }

  lemma SearchFacts(s: Store, q: Vec, topK: nat, hits: seq<(int, real)>, score: (Vec, Vec) -> real)
    ensures var (t, r) := SearchSpec(s, q, topK, hits, score);
            && |r| <= topK
            && (q != [] && |q| != s.dimension ==>
                  r == [] && t.lastError == Some(DimensionMismatch(s.dimension, |q|, SearchOp)))
            && t == s.(lastError := t.lastError)
            && (q == [] || |q| == s.dimension ==> t == s)
            && (s.kind == Ivf && !s.trained && |q| == s.dimension && q != [] ==>
                  SortedDesc(r) && forall x :: x in r ==> x.0 in s.idMap.Values)
  {
    var (t, r) := SearchSpec(s, q, topK, hits, score);
    if s.kind == Ivf && !s.trained && |q| == s.dimension && q != [] && s.pending != [] {
      var all := PendingScores(s.pending, s.idMap, q, score);
      var sorted := SortDesc(all);
      SortedPrefix(sorted, |r|);
      forall x | x in r ensures x.0 in s.idMap.Values {
        assert x in sorted;
        InSorted(all, x);
      }
    }
  }

  /** The pending-buffer path is dead as written: an untrained IVF index
      holds no native vectors, so the empty-index guard answers first. */
  lemma PendingPathUnreachable(s: Store, q: Vec, topK: nat, hits: seq<(int, real)>, score: (Vec, Vec) -> real)
    requires Consistent(s) && s.kind == Ivf && !s.trained
    ensures SearchAsWritten(s, q, topK, hits, score) == []
  {
  }

  /** With the guards in the intended order, a buffered vector whose id is
      still known is found. */
  lemma PendingPathReached(s: Store, q: Vec, topK: nat, hits: seq<(int, real)>, score: (Vec, Vec) -> real)
    requires s.kind == Ivf && !s.trained && q != [] && |q| == s.dimension && topK > 0
    requires exists j :: 0 <= j < |s.pending| && s.pending[j].0 in s.idMap && s.idMap[s.pending[j].0] != ""
    ensures SearchSpec(s, q, topK, hits, score).1 != []
  {
    var j :| 0 <= j < |s.pending| && s.pending[j].0 in s.idMap && s.idMap[s.pending[j].0] != "";
    PendingScoresFinds(s.pending, s.idMap, q, score, j);
  }

  lemma {:induction false} PendingScoresFinds(pending: seq<(nat, Vec)>, idMap: map<nat, string>, q: Vec, score: (Vec, Vec) -> real, j: nat)
    requires j < |pending| && pending[j].0 in idMap && idMap[pending[j].0] != ""
    ensures PendingScores(pending, idMap, q, score) != []
  {
    if j > 0 {
      PendingScoresFinds(pending[1..], idMap, q, score, j - 1);
    }
  }

  // ---------------------------------------------------------------------
  // clear, rebuild_index, optimize_index, check_dimension_compatibility, needs_rebuild

  /** `clear()`: a fresh flat index of the same dimension, empty maps, the
      counter back at 0, no pending vectors and no error. */
  function Cleared(s: Store, model: Option<string>): Store {
    Created(s, s.dimension, model, None, 0).(idMap := map[], reverseMap := map[], nextId := 0, lastError := None, pending := [])
  }

  lemma ClearedFacts(s: Store, model: Option<string>)
    ensures var t := Cleared(s, model);
            && Consistent(t)
            && t.idMap == map[] && t.reverseMap == map[] && t.nextId == 0
            && t.pending == [] && t.native == [] && t.lastError == None
            && t.kind == Flat && t.dimension == s.dimension
  {
  }

  /** Whether the native index accepts a vector: it has the index dimension
      and the index is not an untrained IVF one (FAISS raises otherwise). */
  predicate Accepts(s: Store, v: Vec) {
    |v| == s.dimension && (s.kind != Ivf || s.trained)
  }

  /** One vector of `rebuild_index` taken into an index that accepts it. */
  function AddOne(s: Store, id: string): Store {
    var n := s.nextId;
    var faissId := if s.kind == Flat then n else |s.native|;
    s.(nextId := n + 1, native := s.native + [Stored(faissId, n)],
       idMap := s.idMap[n := id], reverseMap := s.reverseMap[id := n])
  }

  /** The adding loop of `rebuild_index`: each vector takes the next internal
      id; the first vector the index refuses ends the rebuild with failure. */
  function AddAll(s: Store, data: seq<(string, Vec)>): (Store, bool)
    decreases |data|
  {
    if data == [] then (s, true)
    else if !Accepts(s, data[0].1) then (s.(nextId := s.nextId + 1), false)
    else AddAll(AddOne(s, data[0].0), data[1..])
  }

  predicate DistinctIds(data: seq<(string, Vec)>) {
    forall i, j :: 0 <= i < j < |data| ==> data[i].0 != data[j].0
  }

  /** `rebuild_index(index_type, vectors_data)`: everything is cleared, a new
      index is created for the expected count (the data's, or the current
      number of ids), an IVF index is trained on at least 39 vectors, and the
      data is added in order. */
  function Rebuilt(s: Store, requested: Option<IndexKind>, data: seq<(string, Vec)>, model: Option<string>): (Store, bool) {
    var s1 := RebuildBase(s, requested, data, model);
    if data == [] then (s1, true)
    else if s1.kind == Ivf && |data| >= MinTrainSize then
      if forall i :: 0 <= i < |data| ==> |data[i].1| == s.dimension then AddAll(s1.(trained := true), data)
      else (s1, false)
    else AddAll(s1, data)
  }

  /** The cleared store with its new, empty index, before any data is added. */
  function RebuildBase(s: Store, requested: Option<IndexKind>, data: seq<(string, Vec)>, model: Option<string>): Store {
    var expected := if data != [] then |data| else |s.idMap|;
    var s0 := s.(idMap := map[], reverseMap := map[], nextId := 0, pending := [], lastError := None);
    Created(s0, s.dimension, model, requested, expected)
  }

  /** The state after adding `data[..i]` to an empty index of a given kind. */
  ghost predicate FilledWith(s: Store, data: seq<(string, Vec)>, i: nat) {
    && i <= |data|
    && s.nextId == i
    && |s.native| == i
    && (forall j :: 0 <= j < i ==> s.native[j] == Stored(j, j))
    && s.idMap == (map j | 0 <= j < i :: data[j].0)
    && s.reverseMap.Keys == (set j | 0 <= j < i :: data[j].0)
    && (forall j :: 0 <= j < i ==> s.reverseMap[data[j].0] == j)
  }

  lemma FilledStep(s: Store, all: seq<(string, Vec)>, i: nat)
    requires DistinctIds(all) && i < |all| && FilledWith(s, all, i)
    ensures FilledWith(AddOne(s, all[i].0), all, i + 1)
  {
    var t := AddOne(s, all[i].0);
    assert all[i].0 !in s.reverseMap by {
      forall j | 0 <= j < i ensures all[j].0 != all[i].0 { }
    }
    assert t.idMap == (map j | 0 <= j < i + 1 :: all[j].0);
    assert t.reverseMap.Keys == (set j | 0 <= j < i + 1 :: all[j].0);
  }

  lemma {:induction false} AddAllFacts(s: Store, all: seq<(string, Vec)>, i: nat)
    requires DistinctIds(all) && i <= |all|
    requires FilledWith(s, all, i) && s.pending == [] && (s.kind != Ivf || s.trained)
    ensures var (t, ok) := AddAll(s, all[i..]);
            && t.pending == [] && t.kind == s.kind && t.trained == s.trained && t.dimension == s.dimension
            && (ok <==> forall j :: i <= j < |all| ==> |all[j].1| == s.dimension)
            && (ok ==> FilledWith(t, all, |all|))
            && (!ok ==> exists k :: i <= k < |all| && FilledWith(t.(nextId := k), all, k) && t.nextId == k + 1)
    decreases |all| - i
  {
    var data := all[i..];
    if data != [] {
      assert data[0] == all[i];
      if Accepts(s, all[i].1) {
        FilledStep(s, all, i);
        assert data[1..] == all[i + 1..];
        AddAllFacts(AddOne(s, all[i].0), all, i + 1);
      } else {
        assert s.(nextId := s.nextId + 1).(nextId := i) == s;
      }
    }
  }

  lemma RebuildBaseFacts(s: Store, requested: Option<IndexKind>, data: seq<(string, Vec)>, model: Option<string>)
    ensures var b := RebuildBase(s, requested, data, model);
            && FilledWith(b, data, 0) && Consistent(b)
            && b.pending == [] && b.lastError == None && b.dimension == s.dimension
            && (b.trained <==> b.kind != Ivf)
            && (requested.None? ==> b.kind == SelectKind(if data != [] then |data| else |s.idMap|))
  {
  }

  /** After a rebuild the maps are inverses again; on success the data's ids
      got the internal ids 0, 1, ... in order and the index holds every
      vector. An IVF index given fewer than 39 vectors is left untrained and
      refuses the first one. */
  lemma RebuiltFacts(s: Store, requested: Option<IndexKind>, data: seq<(string, Vec)>, model: Option<string>)
    requires DistinctIds(data)
    ensures var (t, ok) := Rebuilt(s, requested, data, model);
            && Consistent(t)
            && t.lastError == None && t.pending == [] && t.dimension == s.dimension
            && (requested.None? ==> t.kind == SelectKind(if data != [] then |data| else |s.idMap|))
            && (data == [] ==> ok && t.idMap == map[] && t.nextId == 0)
            && (ok ==> t.nextId == |data| && forall j :: 0 <= j < |data| ==> data[j].0 in t.reverseMap && t.reverseMap[data[j].0] == j)
            && (ok ==> forall j :: 0 <= j < |data| ==> Stored(j, j) in t.native)
            && (t.kind == Ivf && |data| < MinTrainSize && data != [] ==>
                  !ok && t.idMap == map[] && t.nextId == 1)
  {
    RebuildBaseFacts(s, requested, data, model);
    var s1 := RebuildBase(s, requested, data, model);
    if data != [] {
      var (t, ok) := Rebuilt(s, requested, data, model);
      if s1.kind == Ivf && |data| >= MinTrainSize {
        if forall i :: 0 <= i < |data| ==> |data[i].1| == s.dimension {
          RebuiltAdded(s1.(trained := true), data);
        }
      } else if s1.kind != Ivf {
        RebuiltAdded(s1, data);
      } else {
        assert !Accepts(s1, data[0].1);
        assert t == s1.(nextId := 1);
      }
    }
  }

  lemma RebuiltConsistent(s: Store, requested: Option<IndexKind>, data: seq<(string, Vec)>, model: Option<string>)
    requires DistinctIds(data)
    ensures Consistent(Rebuilt(s, requested, data, model).0)
  {
    RebuiltFacts(s, requested, data, model);
  }

  lemma RebuiltAdded(s1: Store, data: seq<(string, Vec)>)
    requires DistinctIds(data) && data != []
    requires FilledWith(s1, data, 0) && s1.pending == [] && s1.trained
    ensures var (t, ok) := AddAll(s1, data);
            && Consistent(t)
            && t.lastError == s1.lastError && t.pending == [] && t.dimension == s1.dimension && t.kind == s1.kind
            && (ok ==> t.nextId == |data| && forall j :: 0 <= j < |data| ==> data[j].0 in t.reverseMap && t.reverseMap[data[j].0] == j)
            && (ok ==> forall j :: 0 <= j < |data| ==> Stored(j, j) in t.native)
  {
    assert data == data[0..];
    AddAllFacts(s1, data, 0);
    var (t, ok) := AddAll(s1, data);
    FilledConsistent(t, data);
    if ok {
      forall j | 0 <= j < |data| ensures Stored(j, j) in t.native && data[j].0 in t.reverseMap {
        assert t.native[j] == Stored(j, j);
        assert data[j].0 in (set i | 0 <= i < |data| :: data[i].0);
      }
    }
    AddAllKeepsError(s1, data);
  }

  lemma {:induction false} AddAllKeepsError(s: Store, data: seq<(string, Vec)>)
    ensures AddAll(s, data).0.lastError == s.lastError
    decreases |data|
  {
    if data != [] && Accepts(s, data[0].1) {
      AddAllKeepsError(AddOne(s, data[0].0), data[1..]);
    }
  }

  lemma FilledConsistent(t: Store, data: seq<(string, Vec)>)
    requires DistinctIds(data)
    requires exists k :: 0 <= k <= |data| && FilledWith(t.(nextId := k), data, k) && t.nextId >= k
    requires t.pending == [] && t.trained
    ensures Consistent(t)
  {
    var k :| 0 <= k <= |data| && FilledWith(t.(nextId := k), data, k) && t.nextId >= k;
    forall n | n in t.idMap ensures t.idMap[n] in t.reverseMap && t.reverseMap[t.idMap[n]] == n {
      assert t.idMap[n] == data[n].0;
    }
    forall key | key in t.reverseMap ensures t.reverseMap[key] in t.idMap && t.idMap[t.reverseMap[key]] == key {
      var j :| 0 <= j < k && data[j].0 == key;
      assert t.reverseMap[key] == j;
    }
    assert MapsInverse(t.idMap, t.reverseMap);
    assert forall n :: n in t.idMap ==> n < t.nextId;
    assert forall j :: 0 <= j < |t.native| ==> t.native[j].internalId < t.nextId;
    assert forall j :: 0 <= j < |t.native| ==>
             t.native[j].faissId == if t.kind == Flat then t.native[j].internalId else j;
  }

  /** `optimize_index()`: whether the automatic choice for the current number
      of ids differs from the index type in use. */
  function OptimizeAdvice(s: Store): bool {
    SelectKind(|s.idMap|) != s.kind
  }

  /** `optimize_index` and `_create_index` use the same thresholds: an index
      created automatically for the current number of ids needs no change. */
  lemma OptimizeAgreesWithCreate(s: Store, dim: nat, model: Option<string>)
    ensures !OptimizeAdvice(Created(s, dim, model, None, |s.idMap|))
    ensures OptimizeAdvice(s) <==> s.kind != SelectKind(|s.idMap|)
  {
  }

  /** `check_dimension_compatibility(d)`: any dimension suits an empty index. */
  function DimensionCompatible(s: Store, d: int): bool {
    |s.native| == 0 || s.dimension == d
  }

  datatype RebuildVerdict =
    | IndexEmpty
    | DataLost
    | ModelChanged(built: string, current: string)
    | MismatchRecorded(expected: nat, actual: nat)
    | Healthy

  predicate NeedsRebuild(v: RebuildVerdict) {
    v.DataLost? || v.ModelChanged? || v.MismatchRecorded?
  }

  /** Both model names are given, neither is empty, and they differ. */
  predicate ModelDiffers(current: Option<string>, built: Option<string>) {
    current.Some? && current.value != "" && built.Some? && built.value != "" && current.value != built.value
  }

  /** `needs_rebuild(current_model)`. Empty model names count as absent. */
  function RebuildCheck(s: Store, current: Option<string>): (v: RebuildVerdict)
    ensures NeedsRebuild(v) <==>
              (|s.native| == 0 && |s.idMap| > 0)
              || (|s.native| > 0 && (ModelDiffers(current, s.builtModel) || s.lastError.Some?))
    ensures v.ModelChanged? <==> |s.native| > 0 && ModelDiffers(current, s.builtModel)
    ensures v.ModelChanged? ==> v.built == s.builtModel.value && v.current == current.value
  {
    if |s.native| == 0 then (if |s.idMap| == 0 then IndexEmpty else DataLost)
    else if current.Some? && current.value != "" && s.builtModel.Some? && s.builtModel.value != ""
            && current.value != s.builtModel.value then
      ModelChanged(s.builtModel.value, current.value)
    else if s.lastError.Some? then
      MismatchRecorded(s.lastError.value.expected, s.lastError.value.actual)
    else Healthy
  }

  // ---------------------------------------------------------------------
  // Label resolution after training

  /** The flat index reports internal ids, so both readings of a label agree. */
  lemma ResolveFlatAgrees(s: Store, faissId: int)
    requires s.kind == Flat
    ensures Resolve(s, faissId) == ResolveAsWritten(s, faissId)
  {
  }

  /** While every position holds the vector of the same internal id, as after
      a rebuild, both readings of a label agree. */
  lemma ResolveAlignedAgrees(s: Store, faissId: int)
    requires forall j :: 0 <= j < |s.native| ==> s.native[j].internalId == j
    requires 0 <= faissId < |s.native|
    ensures Resolve(s, faissId) == ResolveAsWritten(s, faissId)
  {
  }

  /** Adding a new id to an untrained IVF index appends it to the pending buffer. */
  lemma AddPendingStep(s: Store, id: string, v: Vec, model: Option<string>)
    requires s.kind == Ivf && !s.trained && v != [] && |v| == s.dimension && id !in s.reverseMap
    ensures AddVectorSpec(s, id, v, model).0
            == s.(pending := s.pending + [(s.nextId, v)], nextId := s.nextId + 1,
                  idMap := s.idMap[s.nextId := id], reverseMap := s.reverseMap[id := s.nextId])
  {
    assert Removed(s, id).0 == s;
  }

  /** `rebuild_index(IVF)` without data leaves an empty, untrained IVF index. */
  lemma RebuiltIvfEmpty(s: Store, model: Option<string>)
    ensures var t := Rebuilt(s, Some(Ivf), [], model).0;
            && t.kind == Ivf && !t.trained && t.nlist <= 256 && t.dimension == s.dimension
            && t.idMap == map[] && t.reverseMap == map[] && t.nextId == 0
            && t.pending == [] && t.native == []
  {
  }

  /** After `rebuild_index(IVF)` without data, adding "a", "b" and "c",
      removing "a" and training, the index holds the vectors of "b" and "c" at
      positions 0 and 1. A hit at position 1 is the vector of "c", but the
      code reports it as "b". */
  lemma MisattributedAfterTraining(s: Store, model: Option<string>, v: Vec, q: Vec, training: seq<Vec>, score: (Vec, Vec) -> real)
    requires v != [] && |v| == s.dimension && |q| == s.dimension && q != [] && |training| >= 256
    ensures var s1 := Rebuilt(s, Some(Ivf), [], model).0;
            var s2 := AddVectorSpec(s1, "a", v, model).0;
            var s3 := AddVectorSpec(s2, "b", v, model).0;
            var s4 := AddVectorSpec(s3, "c", v, model).0;
            var s5 := Removed(s4, "a").0;
            var s6 := Trained(s5, Some(training)).0;
            && s6.native == [Stored(0, 1), Stored(1, 2)]
            && SearchAsWritten(s6, q, 2, [(1, 0.9)], score) == [("b", 0.9)]
            && SearchSpec(s6, q, 2, [(1, 0.9)], score).1 == [("c", 0.9)]
  {
    var s1 := Rebuilt(s, Some(Ivf), [], model).0;
    RebuiltIvfEmpty(s, model);
    var s4 := AddVectorSpec(AddVectorSpec(AddVectorSpec(s1, "a", v, model).0, "b", v, model).0, "c", v, model).0;
    AddThreePending(s1, v, model);
    var s5 := Removed(s4, "a").0;
    RemoveFirstPending(s4, v);
    TrainAndSearch(s5, v, q, training, score);
  }

  lemma AddThreePending(s1: Store, v: Vec, model: Option<string>)
    requires s1.kind == Ivf && !s1.trained && s1.idMap == map[] && s1.reverseMap == map[]
    requires s1.nextId == 0 && s1.pending == [] && s1.native == []
    requires v != [] && |v| == s1.dimension
    ensures var s4 := AddVectorSpec(AddVectorSpec(AddVectorSpec(s1, "a", v, model).0, "b", v, model).0, "c", v, model).0;
            s4 == s1.(pending := [(0, v), (1, v), (2, v)], nextId := 3,
                      idMap := map[0 := "a", 1 := "b", 2 := "c"], reverseMap := map["a" := 0, "b" := 1, "c" := 2])
  {
    var s2 := AddVectorSpec(s1, "a", v, model).0;
    AddPendingStep(s1, "a", v, model);
    var s3 := AddVectorSpec(s2, "b", v, model).0;
    AddPendingStep(s2, "b", v, model);
    AddPendingStep(s3, "c", v, model);
  }

  lemma RemoveFirstPending(s4: Store, v: Vec)
    requires s4.kind == Ivf && s4.pending == [(0, v), (1, v), (2, v)]
    requires s4.idMap == map[0 := "a", 1 := "b", 2 := "c"] && s4.reverseMap == map["a" := 0, "b" := 1, "c" := 2]
    ensures var s5 := Removed(s4, "a").0;
            && s5.pending == [(1, v), (2, v)] && s5.idMap == map[1 := "b", 2 := "c"]
            && s5.kind == s4.kind && s5.trained == s4.trained && s5.nlist == s4.nlist
            && s5.native == s4.native && s5.dimension == s4.dimension
  {
    DropHead(s4.pending, 0);
    assert s4.idMap - {0} == map[1 := "b", 2 := "c"];
  }

  lemma DropHead(p: seq<(nat, Vec)>, n: nat)
    requires |p| == 3 && p[0].0 == n && p[1].0 != n && p[2].0 != n
    ensures DropInternal(p, {n}) == p[1..]
  {
    var p1 := p[1..];
    var p2 := p1[1..];
    assert p2[1..] == [];
    assert DropInternal(p2, {n}) == p2;
    assert DropInternal(p1, {n}) == p1;
  }

  lemma TrainAndSearch(s5: Store, v: Vec, q: Vec, training: seq<Vec>, score: (Vec, Vec) -> real)
    requires s5.kind == Ivf && !s5.trained && s5.nlist <= 256 && s5.native == []
    requires s5.pending == [(1, v), (2, v)] && s5.idMap == map[1 := "b", 2 := "c"]
    requires q != [] && |q| == s5.dimension && |training| >= 256
    ensures var s6 := Trained(s5, Some(training)).0;
            && s6.native == [Stored(0, 1), Stored(1, 2)]
            && SearchAsWritten(s6, q, 2, [(1, 0.9)], score) == [("b", 0.9)]
            && SearchSpec(s6, q, 2, [(1, 0.9)], score).1 == [("c", 0.9)]
  {
    var s6 := Trained(s5, Some(training)).0;
    assert Flushed(s5.pending, 0) == [Stored(0, 1), Stored(1, 2)];
    assert s6.native == [Stored(0, 1), Stored(1, 2)];
    assert Take([(1, 0.9)], Min(2 * 2, 2)) == [(1, 0.9)];
  }

  /** Whatever the dimension recorded, an index that has just taken a vector
      is compatible with that vector's length. */
  lemma CompatibleAfterAdd(s: Store, id: string, v: Vec, model: Option<string>)
    requires Consistent(s)
    ensures AddVectorSpec(s, id, v, model).1 ==> DimensionCompatible(AddVectorSpec(s, id, v, model).0, |v|)
  {
    if AddVectorSpec(s, id, v, model).1 {
      AdmittedFacts(s, id, v, model);
    }
  }

  lemma PendingScoresStep(pending: seq<(nat, Vec)>, idMap: map<nat, string>, q: Vec, score: (Vec, Vec) -> real, i: nat)
    requires i < |pending|
    ensures var (n, v) := pending[i];
            PendingScores(pending[i..], idMap, q, score)
            == (if n in idMap && idMap[n] != "" then [(idMap[n], score(v, q))] else []) + PendingScores(pending[i + 1..], idMap, q, score)
  {
    assert pending[i..][1..] == pending[i + 1..];
  }

  // ---------------------------------------------------------------------
  // The store object

  /** The vector store: the FAISS index with its id maps, updated in place.
      The configured embedding model, which the source reads from the
      configuration, is passed to the operations that record it. */
  class VectorStore {
    var dimension: nat
    var kind: IndexKind
    var nlist: nat
    var trained: bool
    var idMap: map<nat, string>
    var reverseMap: map<string, nat>
    var nextId: nat
    var builtModel: Option<string>
    var lastError: Option<IndexError>
    var pending: seq<(nat, Vec)>
    var native: seq<Stored>

    function Model(): Store
      reads this
    {
      Store(dimension, kind, nlist, trained, idMap, reverseMap, nextId, builtModel, lastError, pending, native)
    }

    ghost predicate Valid()
      reads this
    {
      Consistent(Model())
    }

    /** A store without saved files: an empty flat index of dimension 1024. */
    constructor(model: Option<string>)
      ensures Model() == Store(DefaultDimension, Flat, NList(0), true, map[], map[], 0, model, None, [], [])
      ensures Valid()
    {
      dimension := DefaultDimension;
      kind := Flat;
      nlist := NList(0);
      trained := true;
      idMap := map[];
      reverseMap := map[];
      nextId := 0;
      builtModel := model;
      lastError := None;
      pending := [];
      native := [];
    }

    /** `_create_index`. */
    method CreateIndex(dim: nat, model: Option<string>, requested: Option<IndexKind>, expected: int)
      modifies this
      ensures Model() == Created(old(Model()), dim, model, requested, expected)
    {
      ghost var s0 := Model();
      var k := if requested.Some? then requested.value else SelectKind(expected);
      var m := if model.Some? then model else builtModel;
      var n := NList(expected);
      dimension, kind, nlist, trained, builtModel, pending, native := dim, k, n, k != Ivf, m, [], [];
      assert Model() == s0.(dimension := dim, kind := k, nlist := n, trained := k != Ivf, builtModel := m,
                            pending := [], native := []);
    }

    /** `add_vector(id, v)`. */
    method AddVector(id: string, v: Vec, model: Option<string>) returns (ok: bool)
      requires Valid()
      modifies this
      ensures (Model(), ok) == AddVectorSpec(old(Model()), id, v, model)
      ensures Valid()
    {
      ghost var s0 := Model();
      if v == [] {
        assert Model() == s0;
        return false;
      }
      if |v| != dimension && |native| != 0 {
        lastError := Some(DimensionMismatch(dimension, |v|, AddVectorOp));
        ErrorKeepsConsistent(s0, lastError);
        assert Model() == s0.(lastError := lastError);
        return false;
      }
      Admit(id, v, model);
      ok := true;
    }

    /** The accepting part of `add_vector`: the index is recreated for a new
        dimension, an old record of `id` removed, and the vector placed under
        the next internal id. */
    method Admit(id: string, v: Vec, model: Option<string>)
      requires Valid() && v != [] && (|v| == dimension || |native| == 0)
      modifies this
      ensures Model() == Admitted(old(Model()), id, v, model)
      ensures Valid()
    {
      AdmittedConsistent(Model(), id, v, model);
      Vacate(id, v, model);
      InsertNext(id, v);
    }

    /** The index recreated for a new dimension, then an old record of `id`
        removed. */
    method Vacate(id: string, v: Vec, model: Option<string>)
      modifies this
      ensures Model() == Vacated(old(Model()), id, v, model)
    {
      if |v| != dimension {
        CreateIndex(|v|, model, None, 0);
      }
      if id in reverseMap {
        var _ := RemoveVector(id);
      }
    }

    /** `v` added under the next internal id, mapped to `id`. */
    method InsertNext(id: string, v: Vec)
      modifies this
      ensures Model() == Inserted(old(Model()), id, v)
    {
      ghost var s2 := Model();
      var n := nextId;
      nextId := nextId + 1;
      if kind == Ivf && !trained {
        pending := pending + [(n, v)];
      } else if kind == Hnsw {
        native := native + [Stored(|native|, n)];
      } else if kind == Flat {
        native := native + [Stored(n, n)];
      } else {
        native := native + [Stored(|native|, n)];
      }
      ghost var s3 := Model();
      assert s3 == Place(s2.(nextId := n + 1), n, v);
      idMap := idMap[n := id];
      reverseMap := reverseMap[id := n];
    }

    /** `train_index(vectors)`: the pending vectors are added one by one
        after training. */
    method TrainIndex(vectors: Option<seq<Vec>>) returns (ok: bool)
      requires Valid()
      modifies this
      ensures (Model(), ok) == Trained(old(Model()), vectors)
      ensures Valid()
    {
      ghost var s0 := Model();
      TrainedFacts(s0, vectors);
      if kind != Ivf || trained {
        return true;
      }
      if vectors.None? && pending == [] {
        return false;
      }
      var count := if vectors.Some? then |vectors.value| else |pending|;
      if count < Max(nlist, MinTrainSize) {
        return false;
      }
      trained := true;
      FlushPending();
      ok := true;
    }

    /** The loop of `train_index` adding the pending vectors in order, then
        the emptied buffer. */
    method FlushPending()
      modifies this`native, this`pending
      ensures native == old(native) + Flushed(old(pending), |old(native)|)
      ensures pending == []
    {
      ghost var base := native;
      var i := 0;
      while i < |pending|
        invariant 0 <= i <= |pending| && pending == old(pending)
        invariant native == base + Flushed(pending[..i], |base|)
      {
        assert Flushed(pending[..i + 1], |base|) == Flushed(pending[..i], |base|) + [Stored(|base| + i, pending[i].0)];
        native := native + [Stored(|native|, pending[i].0)];
        i := i + 1;
      }
      assert pending[..i] == pending;
      pending := [];
    }

    /** `remove_vector(id)`. */
    method RemoveVector(id: string) returns (ok: bool)
      modifies this
      ensures (Model(), ok) == Removed(old(Model()), id)
    {
      if id !in reverseMap {
        return false;
      }
      ghost var s0 := Model();
      var n := reverseMap[id];
      if kind == Flat {
        native := DropIds(native, {n});
      }
      if pending != [] {
        pending := DropInternal(pending, {n});
      } else {
        assert DropInternal(pending, {n}) == [];
      }
      if n in idMap {
        idMap := idMap - {n};
      } else {
        assert idMap - {n} == idMap;
      }
      reverseMap := reverseMap - {id};
      ok := true;
      assert native == (if s0.kind == Flat then DropIds(s0.native, {n}) else s0.native);
      assert Model() == Removed(s0, id).0;
    }

    /** `remove_vectors_by_prefix(p)`: a snapshot of the ids is walked and
        each matching one removed. */
    method RemoveVectorsByPrefix(p: string) returns (removed: nat)
      requires Valid()
      modifies this
      ensures (Model(), removed) == RemovedByPrefix(old(Model()), p)
      ensures Valid()
    {
      RemovedByPrefixFacts(Model(), p);
      if p == "" {
        return 0;
      }
      removed := RemoveMatching(p);
    }

    /** The loop of `remove_vectors_by_prefix` over every id, removing those
        equal to `p` or starting with it. */
    method RemoveMatching(p: string) returns (removed: nat)
      requires Valid()
      modifies this
      ensures Model() == RemovedAll(old(Model()), PrefixKeys(old(Model()), p))
      ensures removed == |PrefixKeys(old(Model()), p)|
    {
      ghost var s0 := Model();
      var keys := reverseMap.Keys;
      var rest := keys;
      ghost var done: set<string> := {};
      removed := 0;
      RemovedAllEmpty(s0);
      while rest != {}
        invariant keys == s0.reverseMap.Keys && rest <= keys
        invariant done == MatchingKeys(keys - rest, p)
        invariant Model() == RemovedAll(s0, done)
        invariant removed == |done|
        decreases |rest|
      {
        var k :| k in rest;
        MatchingStep(keys, rest, k, p);
        rest := rest - {k};
        if k == p || StartsWith(k, p) {
          var ok := RemoveNext(s0, done, k);
          if ok {
            removed := removed + 1;
          }
          done := done + {k};
        }
      }
      assert keys - rest == keys;
    }

    /** One id of `remove_vectors_by_prefix`: removing an id not yet removed
        always succeeds. */
    method RemoveNext(ghost s0: Store, ghost done: set<string>, k: string) returns (ok: bool)
      requires Consistent(s0) && done <= s0.reverseMap.Keys && k in s0.reverseMap && k !in done
      requires Model() == RemovedAll(s0, done)
      modifies this
      ensures ok && Model() == RemovedAll(s0, done + {k})
    {
      RemovedAllStep(s0, done, k);
      ok := RemoveVector(k);
    }

    /** `_search_pending_vectors`: the buffered vectors scored against the
        query (`score` stands for the normalised dot product). */
    method SearchPendingVectors(q: Vec, topK: nat, score: (Vec, Vec) -> real) returns (r: seq<(string, real)>)
      ensures r == SearchPending(Model(), q, topK, score)
    {
      if pending == [] {
        return [];
      }
      var ps, ids := pending, idMap;
      var scores: seq<(string, real)> := [];
      var i := 0;
      while i < |ps|
        invariant 0 <= i <= |ps|
        invariant scores + PendingScores(ps[i..], ids, q, score) == PendingScores(ps, ids, q, score)
      {
        var (n, v) := ps[i];
        PendingScoresStep(ps, ids, q, score, i);
        var head := if n in ids && ids[n] != "" then [(ids[n], score(v, q))] else [];
        var rest := PendingScores(ps[i + 1..], ids, q, score);
        AppendAssociative(scores, head, rest);
        scores := scores + head;
        i := i + 1;
      }
      assert ps[i..] == [];
      assert scores == PendingScores(Model().pending, Model().idMap, q, score);
      r := Take(SortDesc(scores), topK);
    }

    /** `search(q, top_k)`, with the pending path before the empty-index
        guard and labels resolved through the stored entries. `hits` are the
        (label, score) pairs the native index returns. */
    method Search(q: Vec, topK: nat, hits: seq<(int, real)>, score: (Vec, Vec) -> real) returns (r: seq<(string, real)>)
      modifies this
      ensures (Model(), r) == SearchSpec(old(Model()), q, topK, hits, score)
    {
      if q == [] {
        return [];
      }
      if |q| != dimension {
        lastError := Some(DimensionMismatch(dimension, |q|, SearchOp));
        return [];
      }
      if kind == Ivf && !trained {
        r := SearchPendingVectors(q, topK, score);
        return;
      }
      if |native| == 0 {
        return [];
      }
      var hs := Take(hits, Min(2 * topK, |native|));
      ghost var s := Model();
      r := [];
      var i := 0;
      while i < |hs| && |r| < topK
        invariant 0 <= i <= |hs|
        invariant Collect(s, hs[i..], topK, false, r) == Collect(s, hs, topK, false, [])
      {
        var (faissId, dist) := hs[i];
        assert hs[i..][1..] == hs[i + 1..];
        if faissId != -1 {
          var kid := Resolve(Model(), faissId);
          if kid.Some? && kid.value != "" {
            r := r + [(kid.value, dist)];
          }
        }
        i := i + 1;
      }
    }

    /** `clear()`. */
    method Clear(model: Option<string>)
      modifies this
      ensures Model() == Cleared(old(Model()), model)
      ensures Valid()
    {
      ClearedFacts(Model(), model);
      CreateIndex(dimension, model, None, 0);
      idMap := map[];
      reverseMap := map[];
      nextId := 0;
      lastError := None;
      pending := [];
    }

    /** `rebuild_index(requested, data)`. The maps stay inverse when the
        data's ids are distinct. */
    method RebuildIndex(requested: Option<IndexKind>, data: seq<(string, Vec)>, model: Option<string>) returns (ok: bool)
      modifies this
      ensures (Model(), ok) == Rebuilt(old(Model()), requested, data, model)
      ensures DistinctIds(data) ==> Valid()
    {
      ghost var s0 := Model();
      ResetIndex(requested, if data != [] then |data| else |idMap|, model);
      assert Model() == RebuildBase(s0, requested, data, model);
      if data == [] {
        ok := true;
      } else if kind == Ivf && |data| >= MinTrainSize && exists i :: 0 <= i < |data| && |data[i].1| != dimension {
        ok := false;
      } else {
        if kind == Ivf && |data| >= MinTrainSize {
          trained := true;
        }
        ok := AddVectors(data);
      }
      if DistinctIds(data) {
        RebuiltConsistent(s0, requested, data, model);
      }
    }

    /** The first half of `rebuild_index`: the maps, the counter, the buffer
        and the error are cleared and a new index is created. */
    method ResetIndex(requested: Option<IndexKind>, expected: int, model: Option<string>)
      modifies this
      ensures Model() == Created(old(Model()).(idMap := map[], reverseMap := map[], nextId := 0, pending := [], lastError := None),
                                 old(dimension), model, requested, expected)
    {
      idMap := map[];
      reverseMap := map[];
      nextId := 0;
      pending := [];
      lastError := None;
      CreateIndex(dimension, model, requested, expected);
    }

    /** The adding loop of `rebuild_index`: each vector takes the next
        internal id, and the first one the index refuses ends it. */
    method AddVectors(data: seq<(string, Vec)>) returns (ok: bool)
      modifies this
      ensures (Model(), ok) == AddAll(old(Model()), data)
    {
      ghost var b := Model();
      var i := 0;
      while i < |data|
        invariant 0 <= i <= |data|
        invariant AddAll(Model(), data[i..]) == AddAll(b, data)
      {
        assert data[i..][1..] == data[i + 1..];
        var (id, v) := data[i];
        var n := nextId;
        nextId := nextId + 1;
        if !Accepts(Model(), v) {
          return false;
        }
        native := native + [Stored(if kind == Flat then n else |native|, n)];
        idMap := idMap[n := id];
        reverseMap := reverseMap[id := n];
        i := i + 1;
      }
      assert data[i..] == [];
      ok := true;
    }
  }
}
