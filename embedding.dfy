/** `core/embedding.py`: how `embed_texts` splits the texts into batches of
    32, keeps going when a batch fails and places each returned vector at
    its text's position; `embed_text`; and the model name lookup. The
    retried batch request (`_embed_batch_with_retry`, which goes through the
    rate limiter and the HTTP API) is the parameter `embed`. */
module Embedding {
  import opened Wrappers

  type Vector = seq<real>

  const BatchSize := 32
  const DefaultUiModel := "bge-large-zh"
  const DefaultModel := "BAAI/bge-large-zh-v1.5"

  /** `MODEL_MAPPING`. */
  const ModelMapping: map<string, string> :=
    map["bge-large-zh" := "BAAI/bge-large-zh-v1.5", "m3e-base" := "BAAI/bge-m3",
        "text-embedding-ada-002" := "BAAI/bge-large-zh-v1.5"]

  /** `_get_model_name`, given the configured `embedding_model` (None when
      the key is missing). */
  function ModelName(configured: Option<string>): (name: string)
    ensures name in {"BAAI/bge-large-zh-v1.5", "BAAI/bge-m3"}
    ensures configured.None? ==> name == DefaultModel
    ensures configured.Some? && configured.value !in ModelMapping ==> name == DefaultModel
  {
    var ui := configured.GetOr(DefaultUiModel);
    if ui in ModelMapping then ModelMapping[ui] else DefaultModel
  }

  /** What `embed_texts` ends with: `None`, a list of optional vectors, or
      the `IndexError` raised when a batch returns more vectors than there
      are texts left. */
  datatype Outcome = NoVectors | Vectors(vs: seq<Option<Vector>>) | Raised

  function Min(a: int, b: int): int {
    if a <= b then a else b
  }

  /** `(len(texts) + 31) // 32`. */
  function Batches(n: nat): nat {
    (n + BatchSize - 1) / BatchSize
  }

  /** `texts[start_idx:end_idx]` for batch `b`. */
  function BatchOf(texts: seq<string>, b: nat): seq<string>
    requires b < Batches(|texts|)
  {
    texts[b * BatchSize..Min(b * BatchSize + BatchSize, |texts|)]
  }

  /** The vectors the request for batch `b` returns. */
  function Answer(texts: seq<string>, embed: seq<string> -> Option<seq<Vector>>, b: nat): Option<seq<Vector>>
    requires b < Batches(|texts|)
  {
    embed(BatchOf(texts, b))
  }

  /** Some batch before `upto` returned more vectors than there are
      positions from its start to the end of the list. */
  predicate OverflowBefore(texts: seq<string>, embed: seq<string> -> Option<seq<Vector>>, upto: nat)
    requires upto <= Batches(|texts|)
  {
    upto > 0 &&
      (OverflowBefore(texts, embed, upto - 1)
       || (var a := Answer(texts, embed, upto - 1);
           a.Some? && (upto - 1) * BatchSize + |a.value| > |texts|))
  }

  /** The number of vectors the batches before `upto` returned. */
  function Succeeded(texts: seq<string>, embed: seq<string> -> Option<seq<Vector>>, upto: nat): nat
    requires upto <= Batches(|texts|)
  {
    if upto == 0 then 0
    else
      var a := Answer(texts, embed, upto - 1);
      Succeeded(texts, embed, upto - 1) + if a.Some? then |a.value| else 0
  }

  /** The entry at position `j` once the batches before `upto` are done: the
      vector from the latest successful batch that reached `j`. */
  function Slot(texts: seq<string>, embed: seq<string> -> Option<seq<Vector>>, j: nat, upto: nat): Option<Vector>
    requires upto <= Batches(|texts|)
  {
    if upto == 0 then None
    else
      var a := Answer(texts, embed, upto - 1);
      var start := (upto - 1) * BatchSize;
      if a.Some? && start <= j < start + |a.value| then Some(a.value[j - start])
      else Slot(texts, embed, j, upto - 1)
  }

  /** `embed_texts(texts)` stated position by position, where `apiKey` is
      the configured key. */
  function EmbedSpec(texts: seq<string>, apiKey: string, embed: seq<string> -> Option<seq<Vector>>): Outcome {
    if texts == [] then Vectors([])
    else if apiKey == "" then NoVectors
    else if |texts| <= BatchSize then
      (match embed(texts)
       case None => NoVectors
       case Some(vs) => Vectors(seq(|vs|, i requires 0 <= i < |vs| => Some(vs[i]))))
    else
      var total := Batches(|texts|);
      if OverflowBefore(texts, embed, total) then Raised
      else if Succeeded(texts, embed, total) == 0 then NoVectors
      else Vectors(seq(|texts|, j requires 0 <= j < |texts| => Slot(texts, embed, j, total)))
  }

  lemma {:induction false} OverflowStays(texts: seq<string>, embed: seq<string> -> Option<seq<Vector>>, b: nat,
                                         total: nat)
    requires b <= total <= Batches(|texts|) && OverflowBefore(texts, embed, b)
    ensures OverflowBefore(texts, embed, total)
  {
    if b < total {
      OverflowStays(texts, embed, b, total - 1);
    }
  }

  /** `embed_texts(texts)`. */
  method EmbedTexts(texts: seq<string>, apiKey: string, embed: seq<string> -> Option<seq<Vector>>)
    returns (r: Outcome)
    ensures r == EmbedSpec(texts, apiKey, embed)
  {
    if texts == [] {
      return Vectors([]);
    }
    if apiKey == "" {
      return NoVectors;
    }
    var n := |texts|;
    if n <= BatchSize {
      var direct := embed(texts);
      if direct.None? {
        return NoVectors;
      }
      var vs := direct.value;
      return Vectors(seq(|vs|, i requires 0 <= i < |vs| => Some(vs[i])));
    }
    var all := new Option<Vector>[n](_ => None);
    var total := (n + BatchSize - 1) / BatchSize;
    var successCount := 0;
    var b := 0;
    while b < total
      invariant 0 <= b <= total && total == Batches(n)
      invariant !OverflowBefore(texts, embed, b)
      invariant successCount == Succeeded(texts, embed, b)
      invariant forall j :: 0 <= j < n ==> all[j] == Slot(texts, embed, j, b)
    {
      var start := b * BatchSize;
      var end := Min(start + BatchSize, n);
      var embeddings := embed(texts[start..end]);
      assert embeddings == Answer(texts, embed, b);
      if embeddings.Some? {
        var vs := embeddings.value;
        var placed := PlaceBatch(all, texts, embed, b, vs);
        if !placed {
          OverflowStays(texts, embed, b + 1, total);
          return Raised;
        }
        successCount := successCount + |vs|;
      }
      b := b + 1;
    }
    if successCount == 0 {
      return NoVectors;
    }
    assert all[..] == seq(n, j requires 0 <= j < n => Slot(texts, embed, j, total));
    return Vectors(all[..]);
  }

  /** The inner loop of `embed_texts`: writes the vectors batch `b` returned
      at their positions, or stops at the first one past the end. */
  method PlaceBatch(all: array<Option<Vector>>, texts: seq<string>, embed: seq<string> -> Option<seq<Vector>>,
                    b: nat, vs: seq<Vector>) returns (placed: bool)
    requires b < Batches(|texts|) && all.Length == |texts| && Answer(texts, embed, b) == Some(vs)
    requires forall j :: 0 <= j < all.Length ==> all[j] == Slot(texts, embed, j, b)
    modifies all
    ensures placed <==> b * BatchSize + |vs| <= |texts|
    ensures placed ==> forall j :: 0 <= j < all.Length ==> all[j] == Slot(texts, embed, j, b + 1)
  {
    var start := b * BatchSize;
    var i := 0;
    while i < |vs|
      invariant 0 <= i <= |vs| && start + i <= all.Length
      invariant forall j :: 0 <= j < all.Length ==>
                  all[j] == if start <= j < start + i then Some(vs[j - start]) else Slot(texts, embed, j, b)
    {
      if start + i == all.Length {
        return false;
      }
      all[start + i] := Some(vs[i]);
      i := i + 1;
    }
    return true;
  }

  /** `embed_text(text)`: the first entry of `embed_texts([text])`, if any. */
  method EmbedText(text: string, apiKey: string, embed: seq<string> -> Option<seq<Vector>>)
    returns (v: Option<Vector>)
    ensures apiKey == "" ==> v.None?
    ensures apiKey != "" ==> v == match embed([text])
                                  case None => None
                                  case Some(vs) => if vs == [] then None else Some(vs[0])
  {
    var result := EmbedTexts([text], apiKey, embed);
    if result.Vectors? && |result.vs| > 0 {
      return result.vs[0];
    }
    return None;
  }

  /** When every successful batch returns one vector per text, no batch
      overflows, and each text gets the vector its own batch returned, or
      nothing when its batch failed: a failed batch never shifts the others. */
  lemma {:induction false} SlotAligned(texts: seq<string>, embed: seq<string> -> Option<seq<Vector>>, j: nat,
                                       upto: nat)
    requires upto <= Batches(|texts|) && j < |texts|
    requires forall b :: 0 <= b < Batches(|texts|) && Answer(texts, embed, b).Some? ==>
               |Answer(texts, embed, b).value| == |BatchOf(texts, b)|
    ensures !OverflowBefore(texts, embed, upto)
    ensures Slot(texts, embed, j, upto) ==
              if j / BatchSize < upto && Answer(texts, embed, j / BatchSize).Some?
              then Some(Answer(texts, embed, j / BatchSize).value[j % BatchSize])
              else None
  {
    if upto > 0 {
      SlotAligned(texts, embed, j, upto - 1);
      var b := upto - 1;
      assert |BatchOf(texts, b)| == Min(b * BatchSize + BatchSize, |texts|) - b * BatchSize;
      if b * BatchSize <= j < b * BatchSize + BatchSize {
        assert j / BatchSize == b;
      } else if j < b * BatchSize {
        assert j / BatchSize < b;
      } else {
        assert j / BatchSize > b;
      }
    }
  }

  /** The whole list under a well-behaved service: every position holds its
      own batch's vector or nothing, and the outcome is `None` only when no
      batch succeeded. */
  lemma EmbedAligned(texts: seq<string>, apiKey: string, embed: seq<string> -> Option<seq<Vector>>)
    requires |texts| > BatchSize && apiKey != ""
    requires forall b :: 0 <= b < Batches(|texts|) && Answer(texts, embed, b).Some? ==>
               |Answer(texts, embed, b).value| == |BatchOf(texts, b)|
    ensures EmbedSpec(texts, apiKey, embed) != Raised
    ensures EmbedSpec(texts, apiKey, embed).Vectors? ==>
              var vs := EmbedSpec(texts, apiKey, embed).vs;
              && |vs| == |texts|
              && forall j :: 0 <= j < |texts| ==>
                   vs[j] == if Answer(texts, embed, j / BatchSize).Some?
                            then Some(Answer(texts, embed, j / BatchSize).value[j % BatchSize])
                            else None
  {
    var total := Batches(|texts|);
    SlotAligned(texts, embed, 0, total);
    forall j | 0 <= j < |texts|
      ensures Slot(texts, embed, j, total) ==
                if Answer(texts, embed, j / BatchSize).Some?
                then Some(Answer(texts, embed, j / BatchSize).value[j % BatchSize])
                else None
    {
      SlotAligned(texts, embed, j, total);
    }
  }

  lemma {:induction false} NothingSucceeded(texts: seq<string>, embed: seq<string> -> Option<seq<Vector>>,
                                            upto: nat)
    requires upto <= Batches(|texts|)
    requires forall b :: 0 <= b < Batches(|texts|) ==> Answer(texts, embed, b).None?
    ensures !OverflowBefore(texts, embed, upto) && Succeeded(texts, embed, upto) == 0
  {
    if upto > 0 {
      NothingSucceeded(texts, embed, upto - 1);
    }
  }

  /** When every batch fails the result is `None`, as it is without a key. */
  lemma AllBatchesFailed(texts: seq<string>, apiKey: string, embed: seq<string> -> Option<seq<Vector>>)
    requires |texts| > BatchSize
    requires forall b :: 0 <= b < Batches(|texts|) ==> Answer(texts, embed, b).None?
    ensures EmbedSpec(texts, apiKey, embed) == NoVectors
  {
    NothingSucceeded(texts, embed, Batches(|texts|));
  }
}
