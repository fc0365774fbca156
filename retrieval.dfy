/** The retrieval scoring of the knowledge store (core/shared_data.py):
    keyword scoring over the inverted index's candidates, the keyword
    coverage score, the merge of several result lists and the confidence
    of a ranked answer. Scores are reals; floating-point rounding is not
    modelled. */
module Retrieval {
  import opened PyText
  import opened QueryText
  import opened KnowledgeText
  import opened KnowledgeIndex
  import opened Ranking

  type Ranked = seq<(KnowledgeItem, real)>

  const DefaultTopK: int := 5

  function RMin(a: real, b: real): real {
    if a < b then a else b
  }

  function RMax(a: real, b: real): real {
    if a < b then b else a
  }

  /** `max(0.0, min(x, 1.0))`. */
  function Clamp01(x: real): (r: real)
    ensures 0.0 <= r <= 1.0
    ensures 0.0 <= x <= 1.0 ==> r == x
  {
    RMax(0.0, RMin(x, 1.0))
  }

  lemma Clamp01Monotone(x: real, y: real)
    requires x <= y
    ensures Clamp01(x) <= Clamp01(y)
  {
  }

  /** A count out of a positive total is a share in [0, 1]. */
  lemma Ratio(a: nat, b: nat)
    requires a <= b && 0 < b
    ensures 0.0 <= a as real / b as real <= 1.0
  {
  }

  /** How many of `keywords` are non-empty substrings of `q`. */
  function KeywordHits(keywords: seq<string>, q: string): (n: nat)
    ensures n <= |keywords|
  {
    if keywords == [] then 0
    else (if keywords[0] != "" && Contains(q, keywords[0]) then 1 else 0) + KeywordHits(keywords[1..], q)
  }

  /** How many of `tokens` are non-empty substrings of the non-empty `text`. */
  function TokenHits(tokens: seq<string>, text: string): (n: nat)
    ensures n <= |tokens|
  {
    if tokens == [] then 0
    else (if tokens[0] != "" && text != "" && Contains(text, tokens[0]) then 1 else 0) + TokenHits(tokens[1..], text)
  }

  // ---------------------------------------------------------------------
  // _keyword_search

  /** The tokens the keyword search matches with: those of the query, or
      the stripped query itself when it has none. */
  function SearchTokens(q: string): (ts: seq<string>)
    requires q != ""
    ensures |ts| >= 1
  {
    var ts := ExtractTokens(q);
    if ts == [] then [q] else ts
  }

  /** The score of one item before clamping: keyword hits (capped at 0.7),
      the share of tokens found in the question and in the answer, and
      bonuses when the whole query occurs in either. */
  function ItemScore(item: KnowledgeItem, q: string, tokens: seq<string>): (sc: real)
    requires |tokens| >= 1
    ensures 0.0 <= sc <= 1.26
  {
    var kw := KeywordHits(item.keywords, q);
    var denom := |tokens| as real;
    var qHit := TokenHits(tokens, item.question);
    var aHit := TokenHits(tokens, item.answer);
    Ratio(qHit, |tokens|);
    Ratio(aHit, |tokens|);
    (if kw > 0 then RMin(0.7, 0.35 * kw as real) else 0.0)
    + 0.22 * (qHit as real / denom)
    + 0.14 * (aHit as real / denom)
    + (if item.question != "" && Contains(Lower(item.question), Lower(q)) then 0.12 else 0.0)
    + (if item.answer != "" && Contains(Lower(item.answer), Lower(q)) then 0.08 else 0.0)
  }

  function AllIds(items: seq<KnowledgeItem>): set<string> {
    set it | it in items :: it.id
  }

  /** The ids the index lists under the lowered tokens. */
  function IndexHits(idx: Index, tokens: seq<string>): (ids: set<string>)
    ensures forall x :: x in ids ==> exists t :: t in tokens && Lower(t) in idx && x in idx[Lower(t)]
  {
    if tokens == [] then {}
    else
      var t := Lower(tokens[0]);
      var here := if t in idx then set x | x in idx[t] else {};
      here + IndexHits(idx, tokens[1..])
  }

  /** The candidate set: the index hits when the index is built and
      non-empty, all items when it is not or when nothing was hit. */
  function Candidates(items: seq<KnowledgeItem>, idx: Index, built: bool, tokens: seq<string>): (c: set<string>)
    ensures !built || |idx| == 0 || IndexHits(idx, tokens) == {} ==> c == AllIds(items)
  {
    if built && |idx| > 0 then
      var hits := IndexHits(idx, tokens);
      if hits == {} then AllIds(items) else hits
    else AllIds(items)
  }

  /** One item's entry in the result list: scored when it is a candidate,
      kept when the score reaches the threshold, clamped to 1. */
  function ScoreStep(item: KnowledgeItem, c: set<string>, q: string, tokens: seq<string>, threshold: real): Ranked
    requires |tokens| >= 1
  {
    if item.id !in c then []
    else
      var sc := ItemScore(item, q, tokens);
      if sc >= threshold then [(item, RMin(sc, 1.0))] else []
  }

  /** The scoring loop over the items, in item order. */
  function Scored(items: seq<KnowledgeItem>, c: set<string>, q: string, tokens: seq<string>, threshold: real): (r: Ranked)
    requires |tokens| >= 1
    ensures |r| <= |items|
    ensures forall x :: x in r ==> x.0 in items && x.0.id in c && x.1 <= 1.0
    ensures forall x :: x in r ==> threshold <= 1.0 ==> x.1 >= threshold
    ensures forall x :: x in r ==> x.1 == RMin(ItemScore(x.0, q, tokens), 1.0)
    ensures forall it :: it in items && it.id in c && ItemScore(it, q, tokens) >= threshold ==>
              (it, RMin(ItemScore(it, q, tokens), 1.0)) in r
  {
    if items == [] then []
    else
      var init := items[..|items| - 1];
      var last := items[|items| - 1];
      assert forall it :: it in items ==> it in init || it == last;
      Scored(init, c, q, tokens, threshold) + ScoreStep(last, c, q, tokens, threshold)
  }

  function EffectiveTopK(topK: int): int {
    if topK == 0 then DefaultTopK else topK
  }

  /** `_keyword_search(query, threshold)` with the configured `top_k`. */
  function KeywordSearchSpec(items: seq<KnowledgeItem>, idx: Index, built: bool, query: string, threshold: real, topK: int): Ranked {
    var q := Strip(query);
    if q == "" then []
    else
      var tokens := SearchTokens(q);
      Take(SortDesc(Scored(items, Candidates(items, idx, built, tokens), q, tokens, threshold)), EffectiveTopK(topK))
  }

  /** The keyword search returns a sorted list of at most `top_k` items,
      scores at most 1 and (for a threshold at most 1) at least the
      threshold, and only candidates; a blank query finds nothing. */
  lemma KeywordSearchFacts(items: seq<KnowledgeItem>, idx: Index, built: bool, query: string, threshold: real, topK: int)
    ensures var r := KeywordSearchSpec(items, idx, built, query, threshold, topK);
            && (IsBlank(query) ==> r == [])
            && SortedDesc(r)
            && (topK >= 0 ==> |r| <= EffectiveTopK(topK))
            && (forall x :: x in r ==> x.0 in items && x.1 <= 1.0)
            && (threshold <= 1.0 ==> forall x :: x in r ==> x.1 >= threshold)
            && (!IsBlank(query) ==> forall x :: x in r ==>
                  x.0.id in Candidates(items, idx, built, SearchTokens(Strip(query))))
            && (!IsBlank(query) && topK >= 0 ==>
                  var tokens := SearchTokens(Strip(query));
                  forall x :: x in Scored(items, Candidates(items, idx, built, tokens), Strip(query), tokens, threshold) && x !in r ==>
                    |r| == EffectiveTopK(topK) && forall y :: y in r ==> x.1 <= y.1)
  {
    var q := Strip(query);
    if q != "" {
      var tokens := SearchTokens(q);
      var all := Scored(items, Candidates(items, idx, built, tokens), q, tokens, threshold);
      var sorted := SortDesc(all);
      var r := Take(sorted, EffectiveTopK(topK));
      SortedPrefix(sorted, |r|);
      forall x | x in r ensures x in all {
        assert x in sorted;
        InSorted(all, x);
      }
      if topK >= 0 {
        KeywordComplete(items, idx, built, query, threshold, topK);
      }
    }
  }

  /** A scored candidate cut by `top_k` means `top_k` items were kept, each
      scoring at least as high. */
  lemma KeywordComplete(items: seq<KnowledgeItem>, idx: Index, built: bool, query: string, threshold: real, topK: int)
    requires !IsBlank(query) && topK >= 0
    ensures var r := KeywordSearchSpec(items, idx, built, query, threshold, topK);
            var tokens := SearchTokens(Strip(query));
            forall x :: x in Scored(items, Candidates(items, idx, built, tokens), Strip(query), tokens, threshold) && x !in r ==>
              |r| == EffectiveTopK(topK) && forall y :: y in r ==> x.1 <= y.1
  {
    var q := Strip(query);
    var tokens := SearchTokens(q);
    var all := Scored(items, Candidates(items, idx, built, tokens), q, tokens, threshold);
    var sorted := SortDesc(all);
    var r := Take(sorted, EffectiveTopK(topK));
    assert r == KeywordSearchSpec(items, idx, built, query, threshold, topK);
    forall x | x in all && x !in r ensures |r| == EffectiveTopK(topK) && forall y :: y in r ==> x.1 <= y.1 {
      InSorted(all, x);
      var k :| 0 <= k < |sorted| && sorted[k] == x;
      CutBelow(sorted, r, EffectiveTopK(topK), k);
    }
  }

  /** When the built index lists none of the tokens, every item that scores
      at or above the threshold is ranked (before the `top_k` cut). */
  lemma KeywordFallbackComplete(items: seq<KnowledgeItem>, idx: Index, query: string, threshold: real, it: KnowledgeItem)
    requires !IsBlank(query) && IndexHits(idx, SearchTokens(Strip(query))) == {}
    requires it in items && ItemScore(it, Strip(query), SearchTokens(Strip(query))) >= threshold
    ensures var q := Strip(query);
            var tokens := SearchTokens(q);
            (it, RMin(ItemScore(it, q, tokens), 1.0)) in SortDesc(Scored(items, Candidates(items, idx, true, tokens), q, tokens, threshold))
  {
    var q := Strip(query);
    var tokens := SearchTokens(q);
    assert it.id in AllIds(items);
    InSorted(Scored(items, Candidates(items, idx, true, tokens), q, tokens, threshold), (it, RMin(ItemScore(it, q, tokens), 1.0)));
  }

  // ---------------------------------------------------------------------
  // _keyword_coverage_score

  /** How many tokens occur in some non-empty text of the pool. */
  function PoolHits(tokens: seq<string>, pool: seq<string>): (n: nat)
    ensures n <= |tokens|
  {
    if tokens == [] then 0
    else (if exists p :: p in pool && p != "" && Contains(p, tokens[0]) then 1 else 0) + PoolHits(tokens[1..], pool)
  }

  /** The coverage score for the query's tokens and its stripped text. */
  function CoverageOf(tokens: seq<string>, q: string, item: KnowledgeItem, chunks: seq<string>): (r: real)
    ensures 0.0 <= r <= 1.0
    ensures tokens == [] ==> r == 0.0
  {
    if tokens == [] then 0.0
    else
      var pool := chunks + [item.question, item.answer, BaseText(item)];
      var hits := PoolHits(tokens, pool);
      Ratio(hits, |tokens|);
      var cover := hits as real / |tokens| as real;
      var bonus := RMin(1.0, 0.4 * KeywordHits(item.keywords, q) as real);
      RMin(1.0, 0.75 * cover + 0.25 * bonus)
  }

  /** `_keyword_coverage_score(query, item, chunks)`: three quarters token
      coverage over the chunks, question, answer and base text, one quarter
      keyword bonus (0.4 per keyword found in the query, at most 1). */
  function CoverageScore(query: string, item: KnowledgeItem, chunks: seq<string>): (r: real)
    ensures 0.0 <= r <= 1.0
    ensures ExtractTokens(query) == [] ==> r == 0.0
  {
    CoverageOf(ExtractTokens(query), Strip(query), item, chunks)
  }

  lemma {:induction false} PoolHitsAll(tokens: seq<string>, pool: seq<string>)
    requires forall t :: t in tokens ==> exists p :: p in pool && p != "" && Contains(p, t)
    ensures PoolHits(tokens, pool) == |tokens|
  {
    if tokens != [] {
      assert tokens[0] in tokens;
      assert forall t :: t in tokens[1..] ==> t in tokens;
      PoolHitsAll(tokens[1..], pool);
    }
  }

  /** Tokens that all occur in one text of the pool are all found. */
  lemma {:induction false} PoolHitsOfText(tokens: seq<string>, pool: seq<string>, text: string)
    requires text in pool && forall t :: t in tokens ==> t != "" && Contains(text, t)
    ensures PoolHits(tokens, pool) == |tokens|
  {
    forall t | t in tokens ensures exists p :: p in pool && p != "" && Contains(p, t) {
      var i :| 0 <= i <= |text| && OccursAt(text, t, i);
    }
    PoolHitsAll(tokens, pool);
  }

  /** Tokens that all occur in the question give full token coverage. */
  lemma CoverageOfFull(tokens: seq<string>, q: string, item: KnowledgeItem, chunks: seq<string>)
    requires tokens != [] && forall t :: t in tokens ==> t != "" && Contains(item.question, t)
    ensures CoverageOf(tokens, q, item, chunks) >= 0.75
  {
    var pool := chunks + [item.question, item.answer, BaseText(item)];
    assert item.question in pool;
    PoolHitsOfText(tokens, pool, item.question);
    var k := KeywordHits(item.keywords, q);
    FullCover(|tokens|, k);
    assert CoverageOf(tokens, q, item, chunks)
        == RMin(1.0, 0.75 * (|tokens| as real / |tokens| as real) + 0.25 * RMin(1.0, 0.4 * k as real));
  }

  /** The score with every token covered, whatever the keyword bonus. */
  lemma FullCover(n: nat, k: nat)
    requires n > 0
    ensures RMin(1.0, 0.75 * (n as real / n as real) + 0.25 * RMin(1.0, 0.4 * k as real)) >= 0.75
  {
    var m := n as real;
    assert m / m == 1.0;
    var bonus := RMin(1.0, 0.4 * k as real);
    assert bonus >= 0.0;
  }

  /** When every query token occurs in the question, the coverage score is
      at least three quarters. */
  lemma CoverageOfQuestion(query: string, item: KnowledgeItem, chunks: seq<string>)
    requires ExtractTokens(query) != []
    requires forall t :: t in ExtractTokens(query) ==> Contains(item.question, t)
    ensures CoverageScore(query, item, chunks) >= 0.75
  {
    CoverageOfFull(ExtractTokens(query), Strip(query), item, chunks);
  }

  // ---------------------------------------------------------------------
  // _compute_confidence

  function NonEmpty(ks: seq<string>): (r: seq<string>)
    ensures forall k :: k in r ==> k in ks && k != ""
  {
    if ks == [] then [] else (if ks[0] != "" then [ks[0]] else []) + NonEmpty(ks[1..])
  }

  /** The share of the top item's first (at most six) non-empty keywords
      that occur in the query. */
  function KeywordCover(item: KnowledgeItem, query: string): (r: real)
    ensures 0.0 <= r <= 1.0
  {
    var ks := NonEmpty(item.keywords);
    if ks == [] then 0.0
    else
      var denom := if |ks| < 6 then |ks| else 6;
      Ratio(KeywordHits(ks[..denom], query), denom);
      KeywordHits(ks[..denom], query) as real / denom as real
  }

  /** `_compute_confidence(query, results)`: the top score plus bonuses for
      the gap to the second score, the keyword cover and the number of
      results, clamped to [0, 1]. */
  function Confidence(query: string, results: Ranked): (c: real)
    ensures 0.0 <= c <= 1.0
    ensures results == [] ==> c == 0.0
  {
    if results == [] then 0.0
    else
      var top1 := results[0].1;
      var gap := if |results| >= 2 then top1 - results[1].1 else 0.0;
      var n := if |results| < 5 then |results| else 5;
      var bonus := if |results| >= 2 then (n - 1) as real / 4.0 else 0.0;
      var raw := top1 + 0.15 * Clamp01(gap) + 0.08 * Clamp01(KeywordCover(results[0].0, query)) + 0.04 * Clamp01(bonus);
      if raw < 0.0 then 0.0 else if raw > 1.0 then 1.0 else raw
  }

  /** Raising the top score, with the top item, the second score and the
      number of results fixed, never lowers the confidence. */
  lemma ConfidenceMonotone(query: string, results: Ranked, s: real)
    requires results != [] && s >= results[0].1
    ensures Confidence(query, results[0 := (results[0].0, s)]) >= Confidence(query, results)
  {
    var r2 := results[0 := (results[0].0, s)];
    if |results| >= 2 {
      Clamp01Monotone(results[0].1 - results[1].1, s - r2[1].1);
    }
  }

  /** A confidence that the clamps leave untouched: a single result with
      a top score in [0, 0.92] and no keywords gets exactly that score. */
  lemma ConfidenceOfSingle(query: string, item: KnowledgeItem, s: real)
    requires 0.0 <= s <= 1.0 && NonEmpty(item.keywords) == []
    ensures Confidence(query, [(item, s)]) == s
  {
  }

  // ---------------------------------------------------------------------
  // _merge_results

  function Concat(sets: seq<Ranked>): (r: Ranked)
    ensures forall x :: x in r <==> exists i :: 0 <= i < |sets| && x in sets[i]
  {
    if sets == [] then []
    else
      var r := sets[0] + Concat(sets[1..]);
      assert forall i :: 1 <= i < |sets| ==> sets[i] == sets[1..][i - 1];
      r
  }

  function IdIndex(acc: Ranked, id: string): (j: int)
    ensures -1 <= j < |acc|
    ensures j >= 0 ==> acc[j].0.id == id
    ensures j == -1 ==> forall k :: 0 <= k < |acc| ==> acc[k].0.id != id
  {
    if acc == [] then -1
    else if acc[|acc| - 1].0.id == id then |acc| - 1
    else IdIndex(acc[..|acc| - 1], id)
  }

  /** One step of the merge loop: a new id is appended; a known id keeps its
      place and takes the new entry only when its score is strictly higher. */
  function Keep(acc: Ranked, x: (KnowledgeItem, real)): Ranked {
    var j := IdIndex(acc, x.0.id);
    if j == -1 then acc + [x] else if x.1 > acc[j].1 then acc[j := x] else acc
  }

  function BestPerId(all: Ranked): Ranked {
    if all == [] then [] else Keep(BestPerId(all[..|all| - 1]), all[|all| - 1])
  }

  predicate DistinctIds(r: Ranked) {
    forall i, j :: 0 <= i < j < |r| ==> r[i].0.id != r[j].0.id
  }

  /** One merge step keeps ids distinct and draws only from the old list
      and the new entry. */
  lemma KeepFacts(acc: Ranked, y: (KnowledgeItem, real))
    requires DistinctIds(acc)
    ensures var b := Keep(acc, y);
            && DistinctIds(b)
            && (forall x :: x in b ==> x in acc || x == y)
            && (exists x :: x in b && x.0.id == y.0.id && x.1 >= y.1)
  {
    var j := IdIndex(acc, y.0.id);
    var b := Keep(acc, y);
    if j == -1 {
      assert b[|acc|] == y;
    } else {
      assert b[j].0.id == y.0.id && b[j].1 >= y.1;
    }
  }

  /** One merge step never loses the best score of an id already seen. */
  lemma KeepDominates(acc: Ranked, y: (KnowledgeItem, real), x: (KnowledgeItem, real))
    requires x in acc
    ensures exists x' :: x' in Keep(acc, y) && x'.0.id == x.0.id && x'.1 >= x.1
  {
    var j := IdIndex(acc, y.0.id);
    var b := Keep(acc, y);
    var k :| 0 <= k < |acc| && acc[k] == x;
    if j == k && y.1 > acc[j].1 {
      assert b[j] == y;
    } else {
      assert b[k] == x;
    }
  }

  /** The best entry per id holds each id once. */
  lemma {:induction false} BestPerIdDistinct(all: Ranked)
    ensures DistinctIds(BestPerId(all))
  {
    if all != [] {
      var init := all[..|all| - 1];
      BestPerIdDistinct(init);
      KeepFacts(BestPerId(init), all[|all| - 1]);
    }
  }

  /** Every entry of the best-per-id list comes from the input. */
  lemma {:induction false} BestPerIdFrom(all: Ranked)
    ensures forall x :: x in BestPerId(all) ==> x in all
  {
    if all != [] {
      var init := all[..|all| - 1];
      var y := all[|all| - 1];
      BestPerIdFrom(init);
      BestPerIdDistinct(init);
      KeepFacts(BestPerId(init), y);
      forall x | x in BestPerId(all) ensures x in all {
        if x != y {
          var k :| 0 <= k < |init| && init[k] == x;
          assert all[k] == x;
        }
      }
    }
  }

  /** Every input entry is matched by an entry with its id and at least
      its score. */
  lemma {:induction false} BestPerIdBest(all: Ranked)
    ensures forall y :: y in all ==> exists x :: x in BestPerId(all) && x.0.id == y.0.id && x.1 >= y.1
  {
    if all != [] {
      var init := all[..|all| - 1];
      var y := all[|all| - 1];
      BestPerIdBest(init);
      BestPerIdDistinct(init);
      var acc := BestPerId(init);
      KeepFacts(acc, y);
      forall z | z in all ensures exists x :: x in BestPerId(all) && x.0.id == z.0.id && x.1 >= z.1 {
        var k :| 0 <= k < |all| && all[k] == z;
        if k < |init| {
          assert init[k] == z;
          var x :| x in acc && x.0.id == z.0.id && x.1 >= z.1;
          KeepDominates(acc, y, x);
        } else {
          assert z == y;
        }
      }
    }
  }

  /** The best entry per id: ids are distinct, every entry comes from the
      input, and it is at least as high as any input entry with its id. */
  lemma BestPerIdFacts(all: Ranked)
    ensures var b := BestPerId(all);
            && DistinctIds(b)
            && (forall x :: x in b ==> x in all)
            && (forall y :: y in all ==> exists x :: x in b && x.0.id == y.0.id && x.1 >= y.1)
  {
    BestPerIdDistinct(all);
    BestPerIdFrom(all);
    BestPerIdBest(all);
  }

  /** `_merge_results(result_sets, limit)`. */
  function MergeResults(sets: seq<Ranked>, limit: int): Ranked {
    Take(SortDesc(BestPerId(Concat(sets))), limit)
  }

  /** The merged list is sorted, holds each id at most once with its best
      score over all lists, and comes from the lists. It has `limit` entries,
      or one per id (`BestPerIdFacts`) when there are fewer ids; which ids
      are kept is `MergeKeepsBest`. */
  lemma MergeResultsFacts(sets: seq<Ranked>, limit: int)
    ensures var r := MergeResults(sets, limit);
            && SortedDesc(r)
            && (limit >= 0 ==> |r| <= limit)
            && (forall x :: x in r ==> exists i :: 0 <= i < |sets| && x in sets[i])
            && (forall x, i, y :: x in r && 0 <= i < |sets| && y in sets[i] && y.0.id == x.0.id ==> y.1 <= x.1)
            && (forall i, j :: 0 <= i < j < |r| ==> r[i].0.id != r[j].0.id)
    ensures limit >= 0 ==> var n := |BestPerId(Concat(sets))|; |MergeResults(sets, limit)| == if limit < n then limit else n
  {
    var all := Concat(sets);
    var b := BestPerId(all);
    BestPerIdFacts(all);
    var sorted := SortDesc(b);
    var r := Take(sorted, limit);
    SortedPrefix(sorted, |r|);
    PrefixFrom(b, r);
    PrefixBest(sets, b, r);
    forall i, j | 0 <= i < j < |r| ensures r[i].0.id != r[j].0.id {
      SortedDistinct(b, r, i, j);
    }
  }


  /** The merge keeps the best ids: an id of the lists left out means
      `limit` entries were kept, each scoring at least as high as every
      entry of that id. */
  lemma MergeKeepsBest(sets: seq<Ranked>, limit: int)
    requires limit >= 0
    ensures forall i, y :: 0 <= i < |sets| && y in sets[i] && IdAbsent(MergeResults(sets, limit), y.0.id) ==>
              |MergeResults(sets, limit)| == limit && forall x :: x in MergeResults(sets, limit) ==> y.1 <= x.1
  {
    forall i, y | 0 <= i < |sets| && y in sets[i] && IdAbsent(MergeResults(sets, limit), y.0.id)
      ensures |MergeResults(sets, limit)| == limit && forall x :: x in MergeResults(sets, limit) ==> y.1 <= x.1
    {
      MergeComplete(sets, limit, i, y);
    }
  }

  /** An entry of the lists whose id the merge left out means the merge is
      full, and every kept entry beats it. */
  lemma MergeComplete(sets: seq<Ranked>, limit: int, i: int, y: (KnowledgeItem, real))
    requires limit >= 0 && 0 <= i < |sets| && y in sets[i] && IdAbsent(MergeResults(sets, limit), y.0.id)
    ensures |MergeResults(sets, limit)| == limit
    ensures forall x :: x in MergeResults(sets, limit) ==> y.1 <= x.1
  {
    var all := Concat(sets);
    var b := BestPerId(all);
    BestPerIdBest(all);
    assert y in all;
    var x' :| x' in b && x'.0.id == y.0.id && x'.1 >= y.1;
    MergeLeftOut(b, MergeResults(sets, limit), limit, x');
  }

  /** No entry of `r` has the id. */
  predicate IdAbsent(r: Ranked, id: string) {
    forall x :: x in r ==> x.0.id != id
  }

  /** An entry of `b` cut from the first `limit` of the sorted list means the
      cut was made, and every kept entry scores at least as high. */
  lemma MergeLeftOut(b: Ranked, r: Ranked, limit: int, x': (KnowledgeItem, real))
    requires limit >= 0 && r == Take(SortDesc(b), limit) && x' in b && IdAbsent(r, x'.0.id)
    ensures |r| == limit && forall x :: x in r ==> x'.1 <= x.1
  {
    var s := SortDesc(b);
    InSorted(b, x');
    var k :| 0 <= k < |s| && s[k] == x';
    assert x' !in r;
    CutBelow(s, r, limit, k);
  }

  /** An entry of a sorted list missing from its first `limit` means the
      cut was made and every kept entry scores at least as high. */
  lemma CutBelow(s: Ranked, r: Ranked, limit: int, k: nat)
    requires limit >= 0 && SortedDesc(s) && r == Take(s, limit) && k < |s| && s[k] !in r
    ensures |r| == limit && forall x :: x in r ==> s[k].1 <= x.1
  {
    if k < |r| {
      assert false;
    }
    forall x | x in r ensures s[k].1 <= x.1 {
      var m :| 0 <= m < |r| && r[m] == x;
      assert s[m] == x;
    }
  }

  /** A prefix of the sorted list holds only entries of the list. */
  lemma PrefixFrom(b: Ranked, r: Ranked)
    requires |r| <= |b| && r == SortDesc(b)[..|r|]
    ensures forall x :: x in r ==> x in b
  {
    forall x | x in r ensures x in b {
      InSorted(b, x);
    }
  }

  /** Each entry of the best-per-id list beats every listed entry with its id. */
  lemma PrefixBest(sets: seq<Ranked>, b: Ranked, r: Ranked)
    requires DistinctIds(b) && forall x :: x in r ==> x in b
    requires forall y :: y in Concat(sets) ==> exists x :: x in b && x.0.id == y.0.id && x.1 >= y.1
    ensures forall x, i, y :: x in r && 0 <= i < |sets| && y in sets[i] && y.0.id == x.0.id ==> y.1 <= x.1
  {
    forall x, i, y | x in r && 0 <= i < |sets| && y in sets[i] && y.0.id == x.0.id ensures y.1 <= x.1 {
      assert y in Concat(sets);
      var x' :| x' in b && x'.0.id == y.0.id && x'.1 >= y.1;
      UniqueIdIn(b, x, x');
    }
  }

  lemma UniqueIdIn(b: Ranked, x: (KnowledgeItem, real), y: (KnowledgeItem, real))
    requires DistinctIds(b) && x in b && y in b && x.0.id == y.0.id
    ensures x == y
  {
  }

  /** Two positions of a prefix of the sorted list hold different entries of
      `b`, which have different ids. */
  lemma SortedDistinct(b: Ranked, r: Ranked, i: nat, j: nat)
    requires DistinctIds(b) && i < j < |r| && |r| <= |b| && r == SortDesc(b)[..|r|]
    ensures r[i].0.id != r[j].0.id
  {
    var s := SortDesc(b);
    if r[i].0.id == r[j].0.id {
      assert s[i] in b && s[j] in b by {
        InSorted(b, s[i]);
        InSorted(b, s[j]);
      }
      UniqueIdIn(b, s[i], s[j]);
      assert s[i] == s[j];
      DistinctNoRepeat(b, s, i, j);
    }
  }

  /** In a list with distinct ids an entry occurs once. */
  lemma OccursOnce(b: Ranked, x: (KnowledgeItem, real))
    requires DistinctIds(b)
    ensures x in b ==> multiset(b)[x] == 1
  {
    if x in b {
      var k :| 0 <= k < |b| && b[k] == x;
      assert b == b[..k] + [x] + b[k + 1..];
      assert x !in b[..k] + b[k + 1..] by {
        forall m | 0 <= m < |b| && m != k ensures b[m] != x {
        }
      }
    }
  }

  /** An entry at two positions occurs at least twice. */
  lemma OccursTwice(s: Ranked, i: nat, j: nat)
    requires i < j < |s| && s[i] == s[j]
    ensures multiset(s)[s[i]] >= 2
  {
    assert s == s[..j] + [s[j]] + s[j + 1..];
    assert s[i] in s[..j];
  }

  /** A permutation of a list with distinct ids repeats no entry. */
  lemma DistinctNoRepeat(b: Ranked, s: Ranked, i: nat, j: nat)
    requires DistinctIds(b) && multiset(s) == multiset(b) && i < j < |s|
    ensures s[i] != s[j]
  {
    assert s[i] in multiset(b);
    OccursOnce(b, s[i]);
    if s[i] == s[j] {
      OccursTwice(s, i, j);
    }
  }
}
