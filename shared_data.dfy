/** The knowledge store of core/shared_data.py: the item list with its
    inverted index, keyword search, the duplicate check, and the vector
    index kept in step with the items through `VectorStore`. The embedding
    service is a parameter: `available` stands for `is_available()`, and
    `embed`/`embedText` for `embed_texts`/`embed_text`, with an empty answer
    standing for a failed call. */
module SharedData {
  import opened Wrappers
  import opened PyText
  import opened QueryText
  import opened KnowledgeText
  import opened KnowledgeIndex
  import opened KnowledgeBase
  import opened Retrieval
  import opened VectorIndex
  import opened Ranking

  /** `chunk_max_per_item` when it is unset or 0. */
  const DefaultMaxChunks: int := 6

  type Embedder = seq<string> -> seq<Vec>

  // ---------------------------------------------------------------------
  // _add_to_vector_index

  /** `[c for c in cs if c]`. */
  function NonEmptyChunks(cs: seq<string>): (r: seq<string>)
    ensures |r| <= |cs|
    ensures forall c :: c in r <==> c in cs && c != ""
  {
    if cs == [] then [] else (if cs[0] != "" then [cs[0]] else []) + NonEmptyChunks(cs[1..])
  }

  function ChunkLimit(maxChunks: int): (k: int)
    ensures k >= 1
  {
    var mc := if maxChunks == 0 then DefaultMaxChunks else maxChunks;
    if mc < 1 then 1 else mc
  }

  /** The chunks of an item that are embedded: at most `max(1, max_chunks)`
      chunks of its base text, without empty ones. */
  function ItemChunks(item: KnowledgeItem, size: int, overlap: int, maxChunks: int): (cs: seq<string>)
    requires ChunkingEnds(BaseText(item), size, overlap)
    ensures |cs| <= ChunkLimit(maxChunks)
    ensures forall c :: c in cs ==> c != ""
  {
    var text := BaseText(item);
    var chunks := ChunkList(text, size, overlap);
    NonEmptyChunks(if chunks != [] then Take(chunks, ChunkLimit(maxChunks)) else [text])
  }

  /** The chunk vectors added one by one from position `from` on under the
      ids `item_id#chunk_i`; empty vectors are skipped and the first refusal
      stops the loop. */
  function AddChunkVectors(s: Store, itemId: string, vecs: seq<Vec>, from: nat, model: Option<string>): (Store, bool)
    decreases |vecs| - from
  {
    if from >= |vecs| then (s, true)
    else if vecs[from] == [] then AddChunkVectors(s, itemId, vecs, from + 1, model)
    else
      var (t, ok) := AddVectorSpec(s, MakeChunkId(itemId, from), vecs[from], model);
      if !ok then (t, false) else AddChunkVectors(t, itemId, vecs, from + 1, model)
  }

  /** The vector store after `remove_vector(id)` and
      `remove_vectors_by_prefix(id + "#")`. */
  function Unindexed(s: Store, id: string): Store {
    RemovedByPrefix(Removed(s, id).0, id + "#").0
  }

  /** `_add_to_vector_index(item)`: the vector store afterwards, and the
      recorded vector-index error (reset first, set when an add is refused). */
  function Reindexed(s: Store, item: KnowledgeItem, available: bool, embed: Embedder,
                     size: int, overlap: int, maxChunks: int, model: Option<string>): (Store, Option<IndexError>)
    requires ChunkingEnds(BaseText(item), size, overlap)
  {
    if !available then (s, None)
    else
      var s1 := Unindexed(s, item.id);
      var chunks := ItemChunks(item, size, overlap, maxChunks);
      if chunks == [] then (s1, None)
      else
        var vecs := embed(chunks);
        if vecs == [] || |vecs| != |chunks| then (s1, None)
        else
          var (t, ok) := AddChunkVectors(s1, item.id, vecs, 0, model);
          (t, if ok then None else t.lastError)
  }

  /** One step of `AddChunkVectors`: an empty vector is skipped, a refusal
      stops, an accepted vector goes on from the next position. */
  lemma AddChunkVectorsStep(s: Store, itemId: string, vecs: seq<Vec>, i: nat, model: Option<string>)
    requires i < |vecs|
    ensures vecs[i] == [] ==> AddChunkVectors(s, itemId, vecs, i, model) == AddChunkVectors(s, itemId, vecs, i + 1, model)
    ensures vecs[i] != [] ==>
              var (t, ok) := AddVectorSpec(s, MakeChunkId(itemId, i), vecs[i], model);
              AddChunkVectors(s, itemId, vecs, i, model)
                == if ok then AddChunkVectors(t, itemId, vecs, i + 1, model) else (t, false)
  {
  }

  /** `Reindexed` case by case, one component at a time. */
  lemma ReindexedSteps(s: Store, item: KnowledgeItem, available: bool, embed: Embedder,
                       size: int, overlap: int, maxChunks: int, model: Option<string>)
    requires ChunkingEnds(BaseText(item), size, overlap)
    ensures var r := Reindexed(s, item, available, embed, size, overlap, maxChunks, model);
            var s1 := Unindexed(s, item.id);
            var chunks := ItemChunks(item, size, overlap, maxChunks);
            && (!available ==> r.0 == s && r.1 == None)
            && (available && (chunks == [] || embed(chunks) == [] || |embed(chunks)| != |chunks|) ==>
                  r.0 == s1 && r.1 == None)
            && (available && chunks != [] && embed(chunks) != [] && |embed(chunks)| == |chunks| ==>
                  var (t, ok) := AddChunkVectors(s1, item.id, embed(chunks), 0, model);
                  r.0 == t && r.1 == if ok then None else t.lastError)
  {
  }

  /** Adding chunk vectors keeps the store consistent and every id it had;
      when no add is refused, every non-empty chunk vector is stored under
      its chunk id; a refusal records a dimension mismatch. */
  lemma {:induction false} AddChunkVectorsFacts(s: Store, itemId: string, vecs: seq<Vec>, from: nat, model: Option<string>)
    requires Consistent(s)
    ensures var (t, ok) := AddChunkVectors(s, itemId, vecs, from, model);
            && Consistent(t)
            && s.reverseMap.Keys <= t.reverseMap.Keys
            && (ok ==> forall i :: from <= i < |vecs| && vecs[i] != [] ==> MakeChunkId(itemId, i) in t.reverseMap)
            && (!ok ==> t.lastError.Some? && t.lastError.value.op == AddVectorOp)
    decreases |vecs| - from
  {
    if from < |vecs| {
      if vecs[from] == [] {
        AddChunkVectorsFacts(s, itemId, vecs, from + 1, model);
      } else {
        var (t, ok) := AddVectorSpec(s, MakeChunkId(itemId, from), vecs[from], model);
        AddVectorFacts(s, MakeChunkId(itemId, from), vecs[from], model);
        if ok {
          AdmittedFacts(s, MakeChunkId(itemId, from), vecs[from], model);
          AddChunkVectorsFacts(t, itemId, vecs, from + 1, model);
        }
      }
    }
  }

  /** Re-indexing an item keeps the vector store consistent; without the
      embedding service nothing changes; when it succeeds every non-empty
      chunk vector is stored under `item_id#chunk_i` and no old id with
      the item's id as prefix that was not re-added survives. */
  lemma ReindexedFacts(s: Store, item: KnowledgeItem, available: bool, embed: Embedder,
                       size: int, overlap: int, maxChunks: int, model: Option<string>)
    requires Consistent(s) && ChunkingEnds(BaseText(item), size, overlap)
    ensures var (t, err) := Reindexed(s, item, available, embed, size, overlap, maxChunks, model);
            var chunks := ItemChunks(item, size, overlap, maxChunks);
            var vecs := embed(chunks);
            && Consistent(t)
            && (!available ==> t == s && err == None)
            && (err.Some? ==> err.value.op == AddVectorOp)
            && (available && item.id != "" ==>
                  && item.id !in Unindexed(s, item.id).reverseMap
                  && forall k :: k in Unindexed(s, item.id).reverseMap ==> !StartsWith(k, item.id + "#"))
            && (available && err == None && chunks != [] && |vecs| == |chunks| ==>
                  forall i :: 0 <= i < |vecs| && vecs[i] != [] ==> MakeChunkId(item.id, i) in t.reverseMap)
  {
    if available {
      RemovedFacts(s, item.id);
      var s0 := Removed(s, item.id).0;
      RemovedByPrefixFacts(s0, item.id + "#");
      var s1 := Unindexed(s, item.id);
      var chunks := ItemChunks(item, size, overlap, maxChunks);
      if chunks != [] {
        var vecs := embed(chunks);
        if vecs != [] && |vecs| == |chunks| {
          AddChunkVectorsFacts(s1, item.id, vecs, 0, model);
        }
      }
    }
  }

  // ---------------------------------------------------------------------
  // check_duplicate

  function CharSet(s: string): set<char> {
    set c | c in s
  }

  /** `simple_similarity`: the Jaccard index of the lowered strings'
      character sets, 0 when either is empty. */
  function Jaccard(a: string, b: string): (r: real)
    ensures 0.0 <= r <= 1.0
    ensures Lower(a) == [] || Lower(b) == [] ==> r == 0.0
  {
    var s1 := Lower(a);
    var s2 := Lower(b);
    if s1 == [] || s2 == [] then 0.0
    else
      var inter := CharSet(s1) * CharSet(s2);
      var union := CharSet(s1) + CharSet(s2);
      assert s1[0] in union;
      assert inter <= union;
      SubsetCard(inter, union);
      Ratio(|inter|, |union|);
      |inter| as real / |union| as real
  }

  lemma SubsetCard<T>(a: set<T>, b: set<T>)
    requires a <= b
    ensures |a| <= |b|
  {
    assert b == a + (b - a);
  }

  /** A non-empty string is fully similar to itself. */
  lemma JaccardSelf(a: string)
    requires a != []
    ensures Jaccard(a, a) == 1.0
  {
    var s := Lower(a);
    assert s[0] in CharSet(s);
    assert CharSet(s) * CharSet(s) == CharSet(s) + CharSet(s);
  }

  /** The Jaccard index does not depend on the order of its arguments. */
  lemma JaccardSymmetric(a: string, b: string)
    ensures Jaccard(a, b) == Jaccard(b, a)
  {
    var s1 := Lower(a);
    var s2 := Lower(b);
    assert CharSet(s1) * CharSet(s2) == CharSet(s2) * CharSet(s1);
    assert CharSet(s1) + CharSet(s2) == CharSet(s2) + CharSet(s1);
  }

  /** The first exact match is the position where a scan stops. */
  lemma FirstExactAt(items: seq<KnowledgeItem>, q: string, i: nat)
    requires i <= |items| && forall j :: 0 <= j < i ==> !ExactQuestion(items[j], q)
    requires i < |items| ==> ExactQuestion(items[i], q)
    ensures FirstExact(items, q) == if i == |items| then -1 else i
  {
  }

  /** `item.question.strip().lower() == question`. */
  predicate ExactQuestion(it: KnowledgeItem, q: string) {
    Lower(Strip(it.question)) == q
  }

  function FirstExact(items: seq<KnowledgeItem>, q: string): (i: int)
    ensures -1 <= i < |items|
    ensures i >= 0 ==> ExactQuestion(items[i], q) && forall j :: 0 <= j < i ==> !ExactQuestion(items[j], q)
    ensures i == -1 ==> forall j :: 0 <= j < |items| ==> !ExactQuestion(items[j], q)
  {
    var hits := seq(|items|, j requires 0 <= j < |items| => ExactQuestion(items[j], q));
    assert forall j :: 0 <= j < |items| ==> hits[j] == ExactQuestion(items[j], q);
    FirstTrueFrom(hits, 0)
  }

  /** The first true position at or after `from`, or -1. */
  function FirstTrueFrom(hits: seq<bool>, from: nat): (i: int)
    requires from <= |hits|
    ensures i == -1 || from <= i < |hits|
    ensures i >= 0 ==> hits[i] && forall j :: from <= j < i ==> !hits[j]
    ensures i == -1 ==> forall j :: from <= j < |hits| ==> !hits[j]
    decreases |hits| - from
  {
    if from == |hits| then -1
    else if hits[from] then from
    else FirstTrueFrom(hits, from + 1)
  }

  /** The similarity loop of `check_duplicate`: the first item with the
      strictly highest similarity, and that similarity (0 and none when no
      item is similar at all). */
  function MostSimilar(items: seq<KnowledgeItem>, q: string): (r: (Option<KnowledgeItem>, real))
    ensures 0.0 <= r.1 <= 1.0
    ensures forall it :: it in items ==> Jaccard(q, it.question) <= r.1
    ensures r.0.Some? ==> r.0.value in items && r.1 == Jaccard(q, r.0.value.question) && r.1 > 0.0
    ensures r.0 == None ==> r.1 == 0.0
  {
    if items == [] then (None, 0.0)
    else
      var init := items[..|items| - 1];
      var last := items[|items| - 1];
      assert forall it :: it in items ==> it in init || it == last;
      var (m, b) := MostSimilar(init, q);
      var sc := Jaccard(q, last.question);
      if sc > b then (Some(last), sc) else (m, b)
  }

  /** One more item scanned: it takes the lead only on a strictly higher score. */
  lemma MostSimilarStep(items: seq<KnowledgeItem>, q: string, i: nat)
    requires i < |items|
    ensures var (m, b) := MostSimilar(items[..i], q);
            var sc := Jaccard(q, items[i].question);
            MostSimilar(items[..i + 1], q) == if sc > b then (Some(items[i]), sc) else (m, b)
  {
    assert items[..i + 1][..i] == items[..i];
  }

  /** `item_id.split("#")[0]`. */
  function BeforeHash(id: string): string {
    if Contains(id, "#") then id[..Find(id, "#")] else id
  }

  /** A chunk id leads back to its item id. */
  lemma BeforeHashOfChunkId(itemId: string, i: int)
    requires HashFree(itemId)
    ensures BeforeHash(MakeChunkId(itemId, i)) == itemId
  {
    assert MakeChunkId(itemId, i) == itemId + "#" + ("chunk_" + IntString(i));
    SplitAtFirstHash(itemId, "chunk_" + IntString(i));
  }

  /** The vector step of `check_duplicate`: the store after the search and
      its best hit, when the service is available and the question embeds. */
  function VectorProbe(s: Store, q: string, available: bool, embedText: string -> Vec,
                       hits: seq<(int, real)>, score: (Vec, Vec) -> real): (Store, Option<(string, real)>) {
    if !available then (s, None)
    else
      var qv := embedText(q);
      if qv == [] then (s, None)
      else
        var (t, res) := SearchSpec(s, qv, 1, hits, score);
        (t, if res == [] then None else Some(res[0]))
  }

  /** Whether `check_duplicate` reaches the vector step. */
  predicate Probes(items: seq<KnowledgeItem>, question: string, threshold: real) {
    var q := Lower(Strip(question));
    && !IsBlank(question)
    && FirstExact(items, q) < 0
    && !(MostSimilar(items, q).0.Some? && MostSimilar(items, q).1 >= threshold)
  }

  /** `check_duplicate(question, threshold)` with the vector step's best hit
      given as `probe`. */
  function Duplicate(items: seq<KnowledgeItem>, question: string, threshold: real, probe: Option<(string, real)>): Option<(KnowledgeItem, real)> {
    if IsBlank(question) then None
    else
      var q := Lower(Strip(question));
      var e := FirstExact(items, q);
      if e >= 0 then Some((items[e], 1.0))
      else
        var (m, b) := MostSimilar(items, q);
        if m.Some? && b >= threshold then Some((m.value, b))
        else VectorReport(items, threshold, probe)
  }

  /** The vector step of `check_duplicate`: the item of the best hit's base
      id, when that hit reaches the threshold and the item exists. */
  function VectorReport(items: seq<KnowledgeItem>, threshold: real, probe: Option<(string, real)>): Option<(KnowledgeItem, real)> {
    if probe.Some? && probe.value.1 >= threshold then
      match FindItem(items, BeforeHash(probe.value.0))
      case Some(it) => Some((it, probe.value.1))
      case None => None
    else None
  }

  /** A reported duplicate is an item of the store; an exact match scores 1
      and any other report reaches the threshold; a blank question reports
      nothing. */
  lemma DuplicateFound(items: seq<KnowledgeItem>, question: string, threshold: real, probe: Option<(string, real)>)
    ensures var r := Duplicate(items, question, threshold, probe);
            && (IsBlank(question) ==> r == None)
            && (r.Some? ==> r.value.0 in items)
            && (r.Some? ==> r.value.1 == 1.0 || r.value.1 >= threshold)
  {
    var r := Duplicate(items, question, threshold, probe);
    if !IsBlank(question) {
      var q := Lower(Strip(question));
      var e := FirstExact(items, q);
      if e >= 0 {
        assert r == Some((items[e], 1.0));
      } else {
        var (m, b) := MostSimilar(items, q);
        if m.Some? && b >= threshold {
          assert r == Some((m.value, b));
        } else {
          assert r == VectorReport(items, threshold, probe);
          VectorReportFacts(items, threshold, probe);
        }
      }
    }
  }

  /** The vector step reports an item of the store at or above the threshold. */
  lemma VectorReportFacts(items: seq<KnowledgeItem>, threshold: real, probe: Option<(string, real)>)
    ensures var r := VectorReport(items, threshold, probe);
            r.Some? ==> r.value.0 in items && r.value.1 >= threshold
  {
    if probe.Some? {
      FindItemFacts(items, BeforeHash(probe.value.0));
    }
  }

  /** An item whose stripped, lowered question equals the question's is
      reported with similarity 1. */
  lemma DuplicateExact(items: seq<KnowledgeItem>, question: string, threshold: real, probe: Option<(string, real)>, it: KnowledgeItem)
    requires !IsBlank(question) && it in items && ExactQuestion(it, Lower(Strip(question)))
    ensures var r := Duplicate(items, question, threshold, probe);
            r.Some? && r.value.1 == 1.0 && ExactQuestion(r.value.0, Lower(Strip(question)))
  {
    var j :| 0 <= j < |items| && items[j] == it;
  }

  /** The vector step matters only when it is reached. */
  lemma DuplicateProbeLast(items: seq<KnowledgeItem>, question: string, threshold: real, probe: Option<(string, real)>)
    ensures !Probes(items, question, threshold) ==>
              Duplicate(items, question, threshold, probe) == Duplicate(items, question, threshold, None)
    ensures Probes(items, question, threshold) ==>
              Duplicate(items, question, threshold, probe) == VectorReport(items, threshold, probe)
  {
  }

  // ---------------------------------------------------------------------
  // KnowledgeStore

  /** The store: its items, inverted index and last vector-index error,
      the vector store it keeps in step, and the configuration it reads
      (`chunk_size`, `chunk_overlap`, `chunk_max_per_item`, `retrieval_top_k`). */
  class KnowledgeStore {
    var items: seq<KnowledgeItem>
    var index: Index
    var built: bool
    var lastVectorError: Option<IndexError>
    const vectors: VectorStore
    const chunkSize: int
    const chunkOverlap: int
    const maxChunks: int
    const topK: int

    function Model(): Base
      reads this
    {
      Base(items, index, built)
    }

    ghost predicate Valid()
      reads this, vectors
    {
      Coherent(Model()) && vectors.Valid()
    }

    /** `__init__`, which loads the items through `_load_from_file`. */
    constructor(src: LoadSource, defaults: seq<KnowledgeItem>, vectors: VectorStore,
                chunkSize: int, chunkOverlap: int, maxChunks: int, topK: int)
      requires vectors.Valid()
      ensures Model() == Loaded(src, defaults) && lastVectorError == None
      ensures this.vectors == vectors && this.chunkSize == chunkSize && this.chunkOverlap == chunkOverlap
      ensures this.maxChunks == maxChunks && this.topK == topK
      ensures UniqueIds(LoadedItems(src, defaults)) ==> Valid()
    {
      this.vectors := vectors;
      this.chunkSize := chunkSize;
      this.chunkOverlap := chunkOverlap;
      this.maxChunks := maxChunks;
      this.topK := topK;
      items := LoadedItems(src, defaults);
      index := map[];
      built := false;
      lastVectorError := None;
      new;
      LoadIndex(src, defaults);
      LoadedCoherent(src, defaults);
    }

    /** The indexing step of `_load_from_file`, which a cache hit skips. */
    method LoadIndex(src: LoadSource, defaults: seq<KnowledgeItem>)
      requires items == LoadedItems(src, defaults) && index == map[] && !built
      modifies this`index, this`built
      ensures Model() == Loaded(src, defaults)
    {
      if !src.CacheHit? {
        BuildInvertedIndex();
      }
    }

    /** `_build_inverted_index`: every item's terms indexed in item order. */
    method BuildInvertedIndex()
      modifies this`index, this`built
      ensures Model() == old(Model()).(index := Build(items), built := true)
    {
      index := map[];
      var i := 0;
      assert items[0..] == items;
      while i < |items|
        invariant 0 <= i <= |items|
        invariant BuildFrom(index, items[i..], IndexTerms) == Build(items)
      {
        assert items[i..][1..] == items[i + 1..];
        index := AddPostings(index, items[i].id, IndexTerms(items[i]));
        i := i + 1;
      }
      built := true;
    }

    /** `_update_inverted_index(item, remove)`. */
    method UpdateInvertedIndex(item: KnowledgeItem, remove: bool)
      modifies this`index, this`built
      ensures Model() == IndexUpdated(old(Model()), item, remove)
    {
      if !built {
        BuildInvertedIndex();
        return;
      }
      var terms := IndexTerms(item);
      if remove {
        index := RemovePostings(index, item.id, terms);
      } else {
        index := AddPostings(index, item.id, terms);
      }
    }

    /** `get_item_by_id`. */
    method GetItemById(id: string) returns (r: Option<KnowledgeItem>)
      ensures r == FindItem(items, id)
    {
      var i := 0;
      while i < |items|
        invariant 0 <= i <= |items|
        invariant forall j :: 0 <= j < i ==> items[j].id != id
      {
        if items[i].id == id {
          return Some(items[i]);
        }
        i := i + 1;
      }
      return None;
    }

    /** `_keyword_search(query, threshold)`. */
    method KeywordSearch(query: string, threshold: real) returns (r: Ranked)
      ensures r == KeywordSearchSpec(items, index, built, query, threshold, topK)
    {
      var q := Strip(query);
      if q == "" {
        return [];
      }
      var tokens := ExtractTokens(q);
      if tokens == [] {
        tokens := [q];
      }
      var cand := CandidateIds(tokens);
      var results := ScoreItems(cand, q, tokens, threshold);
      r := Take(SortDesc(results), EffectiveTopK(topK));
    }

    /** The scoring loop of `_keyword_search`. */
    method ScoreItems(cand: set<string>, q: string, tokens: seq<string>, threshold: real) returns (results: Ranked)
      requires |tokens| >= 1
      ensures results == Scored(items, cand, q, tokens, threshold)
    {
      results := [];
      var j := 0;
      while j < |items|
        invariant 0 <= j <= |items|
        invariant results == Scored(items[..j], cand, q, tokens, threshold)
      {
        assert items[..j + 1][..j] == items[..j];
        results := results + ScoreStep(items[j], cand, q, tokens, threshold);
        j := j + 1;
      }
      assert items[..|items|] == items;
    }

    /** The candidate ids of `_keyword_search`. */
    method CandidateIds(tokens: seq<string>) returns (cand: set<string>)
      ensures cand == Candidates(items, index, built, tokens)
    {
      if built && |index| > 0 {
        cand := {};
        var i := 0;
        while i < |tokens|
          invariant 0 <= i <= |tokens|
          invariant cand + IndexHits(index, tokens[i..]) == IndexHits(index, tokens)
        {
          assert tokens[i..][1..] == tokens[i + 1..];
          var t := Lower(tokens[i]);
          if t in index {
            cand := cand + set x | x in index[t];
          }
          i := i + 1;
        }
        assert tokens[i..] == [];
        if cand == {} {
          cand := set it | it in items :: it.id;
        }
      } else {
        cand := set it | it in items :: it.id;
      }
    }

    /** `check_duplicate(question, threshold)`; `hits` are the labels and
        scores the vector index answers for the embedded question. */
    method CheckDuplicate(question: string, threshold: real, available: bool, embedText: string -> Vec,
                          hits: seq<(int, real)>, score: (Vec, Vec) -> real) returns (r: Option<(KnowledgeItem, real)>)
      requires Valid()
      modifies vectors
      ensures var (t, probe) := VectorProbe(old(vectors.Model()), Lower(Strip(question)), available, embedText, hits, score);
              && r == Duplicate(items, question, threshold, probe)
              && vectors.Model() == (if Probes(items, question, threshold) then t else old(vectors.Model()))
      ensures Valid()
    {
      ghost var probe := VectorProbe(vectors.Model(), Lower(Strip(question)), available, embedText, hits, score).1;
      DuplicateProbeLast(items, question, threshold, probe);
      var probes;
      r, probes := LocalDuplicate(question, threshold);
      if probes {
        r := VectorDuplicate(Lower(Strip(question)), threshold, available, embedText, hits, score);
      }
    }

    /** The steps of `check_duplicate` before the vector index: whether the
        vector step is reached, and the answer when it is not. */
    method LocalDuplicate(question: string, threshold: real) returns (r: Option<(KnowledgeItem, real)>, probes: bool)
      ensures probes == Probes(items, question, threshold)
      ensures !probes ==> r == Duplicate(items, question, threshold, None)
    {
      if IsBlank(question) {
        return None, false;
      }
      var q := Lower(Strip(question));
      var e := ExactItem(q);
      if e >= 0 {
        return Some((items[e], 1.0)), false;
      }
      var best, bestScore := MostSimilarItem(q);
      if best.Some? && bestScore >= threshold {
        return Some((best.value, bestScore)), false;
      }
      return None, true;
    }

    /** The exact-match loop of `check_duplicate`. */
    method ExactItem(q: string) returns (i: int)
      ensures i == FirstExact(items, q)
    {
      i := 0;
      while i < |items|
        invariant 0 <= i <= |items|
        invariant forall j :: 0 <= j < i ==> !ExactQuestion(items[j], q)
      {
        if Lower(Strip(items[i].question)) == q {
          FirstExactAt(items, q, i);
          return i;
        }
        i := i + 1;
      }
      FirstExactAt(items, q, i);
      return -1;
    }

    /** The vector step of `check_duplicate`: the best hit for the embedded
        question, mapped back to its item through the part before '#'. */
    method VectorDuplicate(q: string, threshold: real, available: bool, embedText: string -> Vec,
                           hits: seq<(int, real)>, score: (Vec, Vec) -> real) returns (r: Option<(KnowledgeItem, real)>)
      requires vectors.Valid()
      modifies vectors
      ensures var (t, probe) := VectorProbe(old(vectors.Model()), q, available, embedText, hits, score);
              && vectors.Model() == t
              && r == VectorReport(items, threshold, probe)
      ensures vectors.Valid()
    {
      r := None;
      if available {
        var qv := embedText(q);
        if qv != [] {
          ghost var s := vectors.Model();
          SearchFacts(s, qv, 1, hits, score);
          var res := vectors.Search(qv, 1, hits, score);
          ErrorKeepsConsistent(s, vectors.lastError);
          if res != [] && res[0].1 >= threshold {
            var it := GetItemById(BeforeHash(res[0].0));
            if it.Some? {
              r := Some((it.value, res[0].1));
            }
          }
        }
      }
    }

    /** The similarity loop of `check_duplicate`. */
    method MostSimilarItem(q: string) returns (best: Option<KnowledgeItem>, bestScore: real)
      ensures (best, bestScore) == MostSimilar(items, q)
    {
      best := None;
      bestScore := 0.0;
      var i := 0;
      while i < |items|
        invariant 0 <= i <= |items|
        invariant (best, bestScore) == MostSimilar(items[..i], q)
      {
        var sc := Jaccard(q, items[i].question);
        MostSimilarStep(items, q, i);
        if sc > bestScore {
          bestScore := sc;
          best := Some(items[i]);
        }
        i := i + 1;
      }
      assert items[..i] == items;
    }

    /** `_add_to_vector_index(item)`. */
    method AddToVectorIndex(item: KnowledgeItem, available: bool, embed: Embedder, model: Option<string>)
      requires Valid() && ChunkingEnds(BaseText(item), chunkSize, chunkOverlap)
      modifies this`lastVectorError, vectors
      ensures (vectors.Model(), lastVectorError)
              == Reindexed(old(vectors.Model()), item, available, embed, chunkSize, chunkOverlap, maxChunks, model)
      ensures Valid()
    {
      ReindexedSteps(vectors.Model(), item, available, embed, chunkSize, chunkOverlap, maxChunks, model);
      lastVectorError := None;
      if !available {
        return;
      }
      Unindex(item.id);
      var chunks := EmbeddedChunks(item);
      if chunks == [] {
        return;
      }
      var vecs := embed(chunks);
      if vecs == [] || |vecs| != |chunks| {
        return;
      }
      AddChunks(item.id, vecs, model);
    }

    /** `remove_vector(id)` then `remove_vectors_by_prefix(id + "#")`. */
    method Unindex(id: string)
      requires vectors.Valid()
      modifies vectors
      ensures vectors.Model() == Unindexed(old(vectors.Model()), id) && vectors.Valid()
    {
      ghost var s := vectors.Model();
      var removed := vectors.RemoveVector(id);
      RemovedFacts(s, id);
      var count := vectors.RemoveVectorsByPrefix(id + "#");
    }

    /** The chunks `_add_to_vector_index` embeds. */
    method EmbeddedChunks(item: KnowledgeItem) returns (chunks: seq<string>)
      requires ChunkingEnds(BaseText(item), chunkSize, chunkOverlap)
      ensures chunks == ItemChunks(item, chunkSize, chunkOverlap, maxChunks)
    {
      var text := BaseText(item);
      chunks := ChunkText(text, chunkSize, chunkOverlap);
      chunks := NonEmptyChunks(if chunks != [] then Take(chunks, ChunkLimit(maxChunks)) else [text]);
    }

    /** The embedding loop of `_add_to_vector_index`. */
    method AddChunks(itemId: string, vecs: seq<Vec>, model: Option<string>)
      requires vectors.Valid() && lastVectorError == None
      modifies this`lastVectorError, vectors
      ensures var (t, ok) := AddChunkVectors(old(vectors.Model()), itemId, vecs, 0, model);
              && vectors.Model() == t
              && lastVectorError == (if ok then None else t.lastError)
      ensures vectors.Valid()
    {
      ghost var want := AddChunkVectors(vectors.Model(), itemId, vecs, 0, model);
      var i := 0;
      while i < |vecs|
        invariant 0 <= i <= |vecs|
        invariant vectors.Valid() && lastVectorError == None
        invariant AddChunkVectors(vectors.Model(), itemId, vecs, i, model) == want
      {
        ghost var s := vectors.Model();
        AddChunkVectorsStep(s, itemId, vecs, i, model);
        if vecs[i] != [] {
          var ok := vectors.AddVector(MakeChunkId(itemId, i), vecs[i], model);
          if !ok {
            if vectors.lastError.Some? {
              lastVectorError := vectors.lastError;
            }
            return;
          }
        }
        i := i + 1;
      }
    }

    /** The id loop of `add_item`: the largest parsable `int(id[1:])`, at least 0. */
    method MaxItemId() returns (maxId: nat)
      ensures maxId == MaxId(items)
    {
      maxId := 0;
      var i := 0;
      assert items[0..] == items;
      while i < |items|
        invariant 0 <= i <= |items|
        invariant KnowledgeBase.Max(maxId, MaxId(items[i..])) == MaxId(items)
      {
        assert items[i..][1..] == items[i + 1..];
        var p := ParseInt(IdTail(items[i].id));
        MaxStepSwap(maxId, MaxId(items[i + 1..]), p);
        maxId := MaxStep(maxId, p);
        i := i + 1;
      }
    }

    /** `add_item(question, answer, keywords, category)`. */
    method AddItem(question: string, answer: string, keywords: seq<string>, category: string,
                   available: bool, embed: Embedder, model: Option<string>) returns (item: KnowledgeItem)
      requires Valid() && ChunkingEnds(Strip(question + " " + answer), chunkSize, chunkOverlap)
      modifies this, vectors
      ensures item == NewItem(old(items), question, answer, keywords, category)
      ensures Model() == Added(old(Model()), question, answer, keywords, category)
      ensures (vectors.Model(), lastVectorError)
              == Reindexed(old(vectors.Model()), item, available, embed, chunkSize, chunkOverlap, maxChunks, model)
      ensures Valid()
    {
      AddedCoherent(Model(), question, answer, keywords, category);
      item := AddEntry(question, answer, keywords, category);
      assert BaseText(item) == Strip(question + " " + answer);
      assert Valid();
      AddToVectorIndex(item, available, embed, model);
    }

    /** The item and index part of `add_item`. */
    method AddEntry(question: string, answer: string, keywords: seq<string>, category: string) returns (item: KnowledgeItem)
      modifies this`items, this`index, this`built
      ensures item == NewItem(old(items), question, answer, keywords, category)
      ensures Model() == Added(old(Model()), question, answer, keywords, category)
    {
      ghost var b := Model();
      var maxId := MaxItemId();
      var id := "K" + ZeroPad(Decimal(maxId + 1), 3);
      assert id == NewId(items);
      item := KnowledgeItem(id, question, answer, keywords, category, 1.0);
      items := items + [item];
      assert Model() == b.(items := b.items + [item]);
      UpdateInvertedIndex(item, false);
    }

    /** The position loop of `delete_item` and `update_item`. */
    method Position(id: string) returns (i: int)
      ensures i == FirstIndex(items, id)
    {
      i := 0;
      while i < |items| && items[i].id != id
        invariant 0 <= i <= |items|
        invariant forall j :: 0 <= j < i ==> items[j].id != id
      {
        i := i + 1;
      }
      if i == |items| {
        i := -1;
      }
    }

    /** `delete_item(id)`, with the index brought in step after the deletion
        when it was not built. */
    method DeleteItem(id: string) returns (ok: bool)
      requires Valid()
      modifies this`items, this`index, this`built, vectors
      ensures (Model(), ok) == Deleted(old(Model()), id)
      ensures vectors.Model() == if ok then Unindexed(old(vectors.Model()), id) else old(vectors.Model())
      ensures Valid()
    {
      DeletedCoherent(Model(), id);
      ok := DeleteEntry(id);
      if ok {
        ghost var s := vectors.Model();
        var removed := vectors.RemoveVector(id);
        RemovedFacts(s, id);
        var count := vectors.RemoveVectorsByPrefix(id + "#");
      }
    }

    /** The item and index part of `delete_item`. */
    method DeleteEntry(id: string) returns (ok: bool)
      modifies this`items, this`index, this`built
      ensures (Model(), ok) == Deleted(old(Model()), id)
    {
      ghost var b := Model();
      var i := Position(id);
      DeletedAt(b, id, i);
      if i < 0 {
        return false;
      }
      if built {
        RemoveFromBuilt(i, id, IndexTerms(items[i]));
      } else {
        RemoveFromUnbuilt(i);
      }
      ok := true;
    }

    /** Removes the item at `i` and drops `id` from the postings under its
        terms in the built index. */
    method RemoveFromBuilt(i: nat, id: string, terms: set<string>)
      requires i < |items|
      modifies this`items, this`index
      ensures items == Without(old(items), i)
      ensures index == RemovePostings(old(index), id, terms)
    {
      index := RemovePostings(index, id, terms);
      items := Without(items, i);
    }

    /** Removes the item at `i` and builds the index from the rest. */
    method RemoveFromUnbuilt(i: nat)
      requires i < |items|
      modifies this`items, this`index, this`built
      ensures items == Without(old(items), i)
      ensures index == Build(items) && built
    {
      items := Without(items, i);
      BuildInvertedIndex();
    }

    /** `update_item(id, **fields)`, with an unbuilt index built from the
        updated items; the item is then re-embedded. */
    method UpdateItem(id: string, u: ItemUpdate, available: bool, embed: Embedder, model: Option<string>) returns (ok: bool)
      requires Valid()
      requires FirstIndex(items, id) >= 0 ==>
                 ChunkingEnds(BaseText(Apply(items[FirstIndex(items, id)], u)), chunkSize, chunkOverlap)
      modifies this, vectors
      ensures (Model(), ok) == Updated(old(Model()), id, u)
      ensures ok ==> (vectors.Model(), lastVectorError)
                     == Reindexed(old(vectors.Model()), Apply(old(items)[FirstIndex(old(items), id)], u),
                                  available, embed, chunkSize, chunkOverlap, maxChunks, model)
      ensures !ok ==> vectors.Model() == old(vectors.Model()) && lastVectorError == old(lastVectorError)
      ensures Valid()
    {
      var i := Position(id);
      if i < 0 {
        return false;
      }
      UpdatedCoherent(Model(), id, u);
      var updated := Apply(items[i], u);
      ReplaceItem(i, updated);
      AddToVectorIndex(updated, available, embed, model);
      ok := true;
    }

    /** The item and index part of `update_item` for the item at `i`. */
    method ReplaceItem(i: nat, updated: KnowledgeItem)
      requires i < |items| && updated.id == items[i].id
      modifies this`items, this`index, this`built
      ensures var its := old(items)[i := updated];
              Model() == if old(built) then Base(its, Reposted(old(index), updated.id, IndexTerms(old(items)[i]), IndexTerms(updated)), true)
                         else Base(its, Build(its), true)
    {
      if built {
        RepostItem(i, updated, IndexTerms(items[i]), IndexTerms(updated));
      } else {
        items := items[i := updated];
        BuildInvertedIndex();
      }
    }

    /** The built-index branch: the postings under the old item's terms
        lose its id before those under the new item's terms gain it. */
    method RepostItem(i: nat, updated: KnowledgeItem, oldTerms: set<string>, newTerms: set<string>)
      requires i < |items|
      modifies this`items, this`index
      ensures items == old(items)[i := updated]
      ensures index == Reposted(old(index), updated.id, oldTerms, newTerms)
    {
      index := RemovePostings(index, updated.id, oldTerms);
      items := items[i := updated];
      index := AddPostings(index, updated.id, newTerms);
    }
  }
}
