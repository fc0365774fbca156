/** The knowledge item record and the text helpers of the knowledge store
    (core/shared_data.py): `truncate_text`, `trim_history`, item chunking and
    the composite chunk ids `K001#chunk_2` stored in the vector index. */
module KnowledgeText {
  import opened Wrappers
  import opened PyText

  /** A knowledge entry; `category` defaults to "通用" and `score` to 1.0. */
  datatype KnowledgeItem = KnowledgeItem(
    id: string,
    question: string,
    answer: string,
    keywords: seq<string>,
    category: string,
    score: real)

  const DefaultCategory: string := "通用"

  /** The text an item is embedded from: question and answer joined by a space, stripped. */
  function BaseText(item: KnowledgeItem): string {
    Strip(item.question + " " + item.answer)
  }

  /** `truncate_text`: a missing or empty text gives "", a missing or
      non-positive limit keeps the text, otherwise the first `maxChars` characters. */
  function TruncateText(text: Option<string>, maxChars: Option<int>): (r: string)
    ensures text == None || text == Some("") ==> r == ""
    ensures text.Some? ==> |r| <= |text.value| && r == text.value[..|r|]
    ensures text.Some? && (maxChars == None || maxChars.value <= 0 || |text.value| <= maxChars.value)
            ==> r == text.value
    ensures maxChars.Some? && maxChars.value > 0 ==> |r| <= maxChars.value
    ensures text.Some? && maxChars.Some? && 0 < maxChars.value < |text.value| ==> |r| == maxChars.value
  {
    match text
    case None => ""
    case Some(t) =>
      if t == "" then ""
      else if maxChars == None || maxChars.value <= 0 then t
      else if |t| <= maxChars.value then t
      else t[..maxChars.value]
  }

  // ---------------------------------------------------------------------
  // trim_history

  /** One entry of a chat history as the caller passes it: either something
      that is not a dict, or a dict with optional "role" and "content" keys. */
  datatype RawMessage = NotADict | Dict(role: Option<string>, content: Option<string>)

  datatype ChatMessage = ChatMessage(role: string, content: string)

  predicate Kept(m: RawMessage) {
    m.Dict? && (m.role == Some("user") || m.role == Some("assistant"))
    && m.content.Some? && m.content.value != ""
  }

  /** The first pass of `trim_history`: dicts with a user/assistant role and
      non-empty content, in order. */
  function Normalize(history: seq<RawMessage>): (r: seq<ChatMessage>)
    ensures |r| <= |history|
    ensures forall i :: 0 <= i < |r| ==> r[i].content != "" && (r[i].role == "user" || r[i].role == "assistant")
  {
    if history == [] then []
    else
      var m := history[0];
      (if Kept(m) then [ChatMessage(m.role.value, m.content.value)] else []) + Normalize(history[1..])
  }

  /** The normalised history limited to the last `maxMessages` entries when that is positive. */
  function Limited(history: seq<RawMessage>, maxMessages: Option<int>): seq<ChatMessage> {
    var n := Normalize(history);
    if maxMessages.Some? && maxMessages.value > 0 then TakeLast(n, maxMessages.value) else n
  }

  function TotalLength(ms: seq<ChatMessage>): nat {
    if ms == [] then 0 else TotalLength(ms[..|ms| - 1]) + |ms[|ms| - 1].content|
  }

  /** How many trailing messages fit in `budget` characters when they are
      taken newest first and the first one that does not fit stops the walk. */
  function SuffixFit(ms: seq<ChatMessage>, budget: int): (k: nat)
    ensures k <= |ms|
  {
    if ms == [] then 0
    else
      var last := ms[|ms| - 1];
      if |last.content| > budget then 0 else 1 + SuffixFit(ms[..|ms| - 1], budget - |last.content|)
  }

  lemma {:induction false} SuffixFitWithin(ms: seq<ChatMessage>, budget: int)
    ensures TotalLength(ms[|ms| - SuffixFit(ms, budget)..]) <= budget || SuffixFit(ms, budget) == 0
    ensures SuffixFit(ms, budget) == 0 || budget >= 0
  {
    var k := SuffixFit(ms, budget);
    if ms != [] && k > 0 {
      var init := ms[..|ms| - 1];
      var last := ms[|ms| - 1];
      SuffixFitWithin(init, budget - |last.content|);
      var s := ms[|ms| - k..];
      assert s[..|s| - 1] == init[|init| - (k - 1)..];
    } else if ms != [] {
    }
  }

  /** The kept suffix is the longest one: one more message would overflow. */
  lemma {:induction false} SuffixFitMaximal(ms: seq<ChatMessage>, budget: int)
    requires forall i :: 0 <= i < |ms| ==> ms[i].content != ""
    ensures SuffixFit(ms, budget) < |ms| ==>
              TotalLength(ms[|ms| - SuffixFit(ms, budget) - 1..]) > budget
  {
    var k := SuffixFit(ms, budget);
    if ms != [] && k < |ms| {
      var init := ms[..|ms| - 1];
      var last := ms[|ms| - 1];
      if |last.content| > budget {
        var s := ms[|ms| - 1..];
        assert s[..|s| - 1] == [];
      } else {
        SuffixFitMaximal(init, budget - |last.content|);
        var s := ms[|ms| - k - 1..];
        assert s[..|s| - 1] == init[|init| - (k - 1) - 1..];
      }
    }
  }

  function Reverse<T>(s: seq<T>): (r: seq<T>)
    ensures |r| == |s|
    ensures forall i :: 0 <= i < |s| ==> r[i] == s[|s| - 1 - i]
  {
    if s == [] then [] else Reverse(s[1..]) + [s[0]]
  }

  /** What the budget pass keeps of a non-empty history: the longest suffix
      that fits, or the newest message cut to the budget when even it does not fit. */
  function Trimmed(ms: seq<ChatMessage>, budget: int): seq<ChatMessage>
    requires ms != []
  {
    var k := SuffixFit(ms, budget);
    if k > 0 then ms[|ms| - k..]
    else [ChatMessage(ms[|ms| - 1].role, TruncateText(Some(ms[|ms| - 1].content), Some(budget)))]
  }

  /** The kept messages fit in the budget, and keeping one more message
      would overflow it. */
  lemma TrimmedFits(ms: seq<ChatMessage>, budget: int)
    requires ms != [] && budget > 0
    requires forall i :: 0 <= i < |ms| ==> ms[i].content != ""
    ensures TotalLength(Trimmed(ms, budget)) <= budget
    ensures SuffixFit(ms, budget) < |ms| ==>
              TotalLength(ms[|ms| - SuffixFit(ms, budget) - 1..]) > budget
  {
    SuffixFitWithin(ms, budget);
    SuffixFitMaximal(ms, budget);
    var t := Trimmed(ms, budget);
    if SuffixFit(ms, budget) == 0 {
      assert t[..|t| - 1] == [];
    }
  }

  /** `trim_history`: normalises the history, keeps the last `maxMessages`
      entries, then keeps the longest suffix whose total length fits in
      `maxChars`; when not even the newest message fits, it is kept truncated. */
  method TrimHistory(history: seq<RawMessage>, maxMessages: Option<int>, maxChars: Option<int>)
    returns (r: seq<ChatMessage>)
    ensures var ms := Limited(history, maxMessages);
      r == if ms == [] then []
           else if maxChars == None || maxChars.value <= 0 then ms
           else Trimmed(ms, maxChars.value)
  {
    if history == [] {
      return [];
    }
    var normalized := Normalize(history);
    if normalized == [] {
      return [];
    }
    if maxMessages.Some? && maxMessages.value > 0 {
      normalized := TakeLast(normalized, maxMessages.value);
    }
    if maxChars == None || maxChars.value <= 0 {
      return normalized;
    }
    r := PickNewest(normalized, maxChars.value);
  }

  /** The character-budget pass of `trim_history`: walks the messages newest
      first, keeping each while the running total stays within `budget`. */
  method PickNewest(normalized: seq<ChatMessage>, budget: int) returns (r: seq<ChatMessage>)
    requires normalized != [] && budget > 0
    ensures r == Trimmed(normalized, budget)
  {
    var pickedReversed: seq<ChatMessage> := [];
    var total := 0;
    var i := |normalized|;
    ghost var rest := budget;
    assert normalized[..i] == normalized;
    assert normalized[i..] == [];
    while i > 0
      invariant 0 <= i <= |normalized|
      invariant pickedReversed == Reverse(normalized[i..])
      invariant total == TotalLength(normalized[i..]) <= budget
      invariant rest == budget - total
      invariant SuffixFit(normalized, budget) == |normalized| - i + SuffixFit(normalized[..i], rest)
    {
      var msg := normalized[i - 1];
      var content := msg.content;
      var nextTotal := total + |content|;
      FitStep(normalized, i, rest);
      if nextTotal > budget {
        TrimmedAt(normalized, budget, i, total);
        if pickedReversed == [] {
          pickedReversed := pickedReversed + [ChatMessage(msg.role, TruncateText(Some(content), Some(budget)))];
        } else {
          ReverseReverse(normalized[i..]);
        }
        r := Reverse(pickedReversed);
        return;
      }
      TrimStep(normalized, i);
      pickedReversed := pickedReversed + [msg];
      total := nextTotal;
      rest := rest - |content|;
      i := i - 1;
    }
    TrimmedAt(normalized, budget, 0, total);
    ReverseReverse(normalized);
    r := Reverse(pickedReversed);
  }

  /** Where the budget pass stops, at `i` with `total` characters kept: the
      kept suffix is the one `Trimmed` describes. */
  lemma TrimmedAt(ms: seq<ChatMessage>, budget: int, i: nat, total: int)
    requires ms != [] && i <= |ms|
    requires SuffixFit(ms, budget) == |ms| - i + SuffixFit(ms[..i], budget - total)
    requires i == 0 || |ms[i - 1].content| > budget - total
    ensures i < |ms| ==> Trimmed(ms, budget) == ms[i..]
    ensures i == |ms| ==>
              Trimmed(ms, budget) == [ChatMessage(ms[|ms| - 1].role, TruncateText(Some(ms[|ms| - 1].content), Some(budget)))]
  {
    if i > 0 {
      FitStep(ms, i, budget - total);
    } else {
      assert ms[..i] == [];
    }
  }

  lemma FitStep(ms: seq<ChatMessage>, i: nat, budget: int)
    requires 0 < i <= |ms|
    ensures |ms[i - 1].content| > budget ==> SuffixFit(ms[..i], budget) == 0
    ensures |ms[i - 1].content| <= budget ==>
      SuffixFit(ms[..i], budget) == 1 + SuffixFit(ms[..i - 1], budget - |ms[i - 1].content|)
  {
    assert ms[..i][..i - 1] == ms[..i - 1];
  }

  lemma TrimStep(ms: seq<ChatMessage>, i: nat)
    requires 0 < i <= |ms|
    ensures Reverse(ms[i - 1..]) == Reverse(ms[i..]) + [ms[i - 1]]
    ensures TotalLength(ms[i - 1..]) == |ms[i - 1].content| + TotalLength(ms[i..])
  {
    assert ms[i - 1..] == [ms[i - 1]] + ms[i..];
    assert ms[i - 1..][1..] == ms[i..];
    TotalLengthCons(ms[i - 1], ms[i..]);
  }

  lemma {:induction false} TotalLengthCons(m: ChatMessage, ms: seq<ChatMessage>)
    ensures TotalLength([m] + ms) == |m.content| + TotalLength(ms)
    decreases |ms|
  {
    if ms != [] {
      var s := [m] + ms;
      assert s[..|s| - 1] == [m] + ms[..|ms| - 1];
      TotalLengthCons(m, ms[..|ms| - 1]);
    }
  }

  lemma ReverseReverse<T>(s: seq<T>)
    ensures Reverse(Reverse(s)) == s
  {
  }

  // ---------------------------------------------------------------------
  // Chunking

  /** The chunks cut from position `start` on: one slice `text[start : start + size]`
      per start position below the length, advancing by `step`. */
  function ChunksFrom(text: string, start: nat, size: int, step: int): seq<string>
    requires step > 0
    decreases |text| - start
  {
    if start >= |text| then [] else [Slice(text, start, start + size)] + ChunksFrom(text, start + step, size, step)
  }

  /** `_chunk_text` returns on `text`: the text fits in one chunk, or each
      round of its loop moves `start` forward (see `LoopNeverEnds`). */
  predicate ChunkingEnds(text: string, size: int, overlap: int) {
    |text| <= size || size - overlap > 0
  }

  /** What `_chunk_text` returns. */
  function ChunkList(text: string, size: int, overlap: int): seq<string>
    requires ChunkingEnds(text, size, overlap)
  {
    if |text| <= size then [text] else ChunksFrom(text, 0, size, size - overlap)
  }

  /** `_chunk_text`: a text no longer than `size` is one chunk; otherwise the
      chunks start at 0, step, 2*step, ... with `step = size - overlap`.
      The source loops forever when `overlap >= size`, hence the requirement. */
  method ChunkText(text: string, size: int, overlap: int) returns (chunks: seq<string>)
    requires ChunkingEnds(text, size, overlap)
    ensures |text| <= size ==> chunks == [text]
    ensures |text| > size ==> chunks == ChunksFrom(text, 0, size, size - overlap)
    ensures chunks == ChunkList(text, size, overlap)
  {
    if |text| <= size {
      return [text];
    }
    chunks := [];
    var start := 0;
    while start < |text|
      invariant chunks + ChunksFrom(text, start, size, size - overlap) == ChunksFrom(text, 0, size, size - overlap)
      decreases |text| - start
    {
      var end := start + size;
      chunks := chunks + [Slice(text, start, end)];
      start := end - overlap;
    }
  }

  /** The value of `start` after n rounds of the source's loop, each round
      setting `start = start + size - overlap`. */
  function LoopStart(size: int, overlap: int, n: nat): int {
    if n == 0 then 0 else LoopStart(size, overlap, n - 1) + size - overlap
  }

  /** As written: with `overlap >= size` (the settings allow a chunk size of
      100 with an overlap of up to 500) `start` never moves forward, so for a
      text longer than the chunk size the loop test `start < len(text)` holds
      after every round and the loop never ends. */
  lemma {:induction false} LoopNeverEnds(text: string, size: int, overlap: int, n: nat)
    requires 0 <= size < |text| && size - overlap <= 0
    ensures LoopStart(size, overlap, n) <= 0 < |text|
    decreases n
  {
    if n > 0 {
      LoopNeverEnds(text, size, overlap, n - 1);
    }
  }

  /** After n rounds `start` is n strides on. */
  lemma {:induction false} LoopStartStrides(size: int, overlap: int, n: nat)
    ensures LoopStart(size, overlap, n) == n * (size - overlap)
    decreases n
  {
    if n > 0 {
      LoopStartStrides(size, overlap, n - 1);
      StrideSucc(n - 1, size - overlap);
    }
  }

  /** With an overlap below the chunk size the loop ends: it runs once per
      chunk of `ChunkList`, each of those rounds starting inside the text, and
      the round after the last chunk starts past its end. */
  lemma ChunkLoopEnds(text: string, size: int, overlap: int)
    requires |text| > size && size - overlap > 0
    ensures var k := |ChunkList(text, size, overlap)|;
      (k == 0 <==> text == [])
      && (k > 0 ==> LoopStart(size, overlap, k - 1) < |text| <= LoopStart(size, overlap, k))
  {
    var k := |ChunkList(text, size, overlap)|;
    if text != [] {
      ChunkCountBounds(text, 0, size, size - overlap);
      LoopStartStrides(size, overlap, k - 1);
      LoopStartStrides(size, overlap, k);
    }
  }

  /** Chunk i is the slice that starts i strides after `start`. */
  lemma ChunkAt(text: string, start: nat, size: int, step: int, i: nat)
    requires step > 0 && i < |ChunksFrom(text, start, size, step)|
    ensures start + i * step < |text|
    ensures ChunksFrom(text, start, size, step)[i] == Slice(text, start + i * step, start + i * step + size)
  {
    ChunkAtOffset(text, start, size, step, i, start + i * step);
  }

  /** `ChunkAt` with the start of chunk i, `p`, named. */
  lemma {:induction false} ChunkAtOffset(text: string, start: nat, size: int, step: int, i: nat, p: int)
    requires step > 0 && i < |ChunksFrom(text, start, size, step)|
    requires p == start + i * step
    ensures p < |text|
    ensures ChunksFrom(text, start, size, step)[i] == Slice(text, p, p + size)
    decreases i
  {
    var all, rest := ChunksFrom(text, start, size, step), ChunksFrom(text, start + step, size, step);
    assert all == [Slice(text, start, start + size)] + rest;
    if i > 0 {
      StrideSucc(i - 1, step);
      ChunkAtOffset(text, start + step, size, step, i - 1, p);
      assert all[i] == rest[i - 1] == Slice(text, p, p + size);
    } else {
      assert p == start;
      assert all[i] == Slice(text, p, p + size);
    }
  }

  /** One more stride. */
  lemma StrideSucc(k: nat, step: int)
    ensures step + k * step == (k + 1) * step
  {
  }

  /** The number of chunks is the number of start positions below the length:
      the last chunk starts inside the text and the next stride would not. */
  lemma {:induction false} ChunkCountBounds(text: string, start: nat, size: int, step: int)
    requires step > 0 && start < |text|
    ensures var k := |ChunksFrom(text, start, size, step)|;
      k > 0 && start + (k - 1) * step < |text| <= start + k * step
    decreases |text| - start
  {
    var rest := ChunksFrom(text, start + step, size, step);
    assert ChunksFrom(text, start, size, step) == [Slice(text, start, start + size)] + rest;
    var k := |rest| + 1;
    if start + step < |text| {
      ChunkCountBounds(text, start + step, size, step);
      assert start + step + (k - 2) * step == start + (k - 1) * step;
      assert start + step + (k - 1) * step == start + k * step;
    } else {
      assert rest == [];
    }
  }

  /** No chunk is longer than the chunk size. */
  lemma {:induction false} ChunksBounded(text: string, start: nat, size: int, step: int)
    requires 0 < step && 0 <= size
    ensures forall c :: c in ChunksFrom(text, start, size, step) ==> |c| <= size
    decreases |text| - start
  {
    if start < |text| {
      ChunksBounded(text, start + step, size, step);
    }
  }

  /** With a stride no longer than the chunk size (a non-negative overlap),
      every position from `start` on lies in the stride of some chunk, so
      inside that chunk (see ChunkAt). */
  lemma {:induction false} ChunksCoverText(text: string, start: nat, size: int, step: int, p: nat)
    requires 0 < step <= size && start <= p < |text|
    ensures exists i :: (0 <= i < |ChunksFrom(text, start, size, step)|
                         && start + i * step <= p < start + i * step + step)
    decreases |text| - start
  {
    var rest := ChunksFrom(text, start + step, size, step);
    assert ChunksFrom(text, start, size, step) == [Slice(text, start, start + size)] + rest;
    if p < start + step {
      assert start + 0 * step <= p < start + 0 * step + step;
    } else {
      ChunksCoverText(text, start + step, size, step, p);
      var j :| 0 <= j < |rest| && start + step + j * step <= p < start + step + j * step + step;
      assert start + step + j * step == start + (j + 1) * step;
    }
  }

  // ---------------------------------------------------------------------
  // Composite chunk ids

  /** `str(int(i))`. */
  function IntString(i: int): string {
    if i < 0 then "-" + Decimal(-i) else Decimal(i)
  }

  /** `_make_chunk_id`: `f"{item_id}#chunk_{i}"`. */
  function MakeChunkId(itemId: string, i: int): string {
    itemId + "#chunk_" + IntString(i)
  }

  function DigitRunLen(s: string): (k: nat)
    ensures k <= |s|
    ensures forall j :: 0 <= j < k ==> IsDigit(s[j])
    ensures k == |s| || !IsDigit(s[k])
  {
    if s == [] || !IsDigit(s[0]) then 0 else 1 + DigitRunLen(s[1..])
  }

  /** The leftmost maximal run of digits, which the regular expression `(\d+)` finds. */
  function FirstDigitRun(s: string): (r: Option<string>)
    ensures r.Some? ==> r.value != [] && AllDigits(r.value)
    ensures r == None <==> forall j :: 0 <= j < |s| ==> !IsDigit(s[j])
  {
    if s == [] then None
    else if IsDigit(s[0]) then Some(s[..DigitRunLen(s)])
    else
      var r := FirstDigitRun(s[1..]);
      assert r == None ==> forall j :: 0 <= j < |s| ==> !IsDigit(s[j]) by {
        if r == None {
          forall j | 0 <= j < |s| ensures !IsDigit(s[j]) {
            if j > 0 { assert s[j] == s[1..][j - 1]; }
          }
        }
      }
      r
  }

  /** `_split_chunk_id`: splits a stored id at its first '#' into the
      stripped base id and the number in the first digit run after it. */
  function SplitChunkId(stored: string): (Option<string>, Option<int>) {
    if stored == "" then (None, None)
    else if !Contains(stored, "#") then (Some(stored), None)
    else
      var p := Find(stored, "#");
      var base := Strip(stored[..p]);
      var rest := stored[p + 1..];
      if base == "" then (None, None)
      else
        match FirstDigitRun(rest)
        case None => (Some(base), None)
        case Some(digits) => (Some(base), Some(DigitsValue(digits) as int))
  }

  predicate HashFree(s: string) {
    forall j :: 0 <= j < |s| ==> s[j] != '#'
  }

  /** Splitting a composite id gives back the item id and chunk index that
      made it, for an item id that is non-empty, has no '#' and no
      surrounding whitespace, and a non-negative index. */
  lemma SplitMakeChunkId(itemId: string, i: int)
    requires itemId != "" && HashFree(itemId) && Strip(itemId) == itemId
    requires i >= 0
    ensures SplitChunkId(MakeChunkId(itemId, i)) == (Some(itemId), Some(i))
  {
    var d := Decimal(i);
    assert MakeChunkId(itemId, i) == itemId + "#" + ("chunk_" + d);
    SplitAtFirstHash(itemId, "chunk_" + d);
    FirstRunAfterPrefix("chunk_", d);
    DecimalValue(i);
  }

  lemma SplitAtFirstHash(a: string, b: string)
    requires HashFree(a)
    ensures var s := a + "#" + b;
      Contains(s, "#") && Find(s, "#") == |a| && s[..|a|] == a && s[|a| + 1..] == b
  {
    var s := a + "#" + b;
    assert OccursAt(s, "#", |a|);
    forall j | 0 <= j < |a| ensures !OccursAt(s, "#", j) {
      assert s[j] == a[j];
    }
  }

  lemma {:induction false} FirstRunAfterPrefix(prefix: string, d: string)
    requires forall j :: 0 <= j < |prefix| ==> !IsDigit(prefix[j])
    requires d != [] && AllDigits(d)
    ensures FirstDigitRun(prefix + d) == Some(d)
  {
    if prefix == [] {
      assert prefix + d == d;
      DigitRunWhole(d);
      assert d[..|d|] == d;
    } else {
      assert (prefix + d)[1..] == prefix[1..] + d;
      FirstRunAfterPrefix(prefix[1..], d);
    }
  }

  lemma {:induction false} DigitRunWhole(d: string)
    requires AllDigits(d)
    ensures DigitRunLen(d) == |d|
  {
    if d != [] {
      DigitRunWhole(d[1..]);
    }
  }
}
