/** Query-side text processing of the knowledge store (core/shared_data.py):
    `_extract_tokens` (ASCII words, CJK segments and their bigrams, de-duplicated
    and capped) and `_rewrite_query` (stop-phrase removal and synonym expansion). */
module QueryText {
  import opened PyText

  // ---------------------------------------------------------------------
  // _extract_tokens

  const MaxTokens: nat := 40
  const MaxBigrams: nat := 12

  datatype CharClass = AsciiAlnum | Cjk

  /** `[a-z0-9]` and `[一-鿿]`. */
  predicate InClass(c: char, cls: CharClass) {
    match cls
    case AsciiAlnum => 'a' <= c <= 'z' || '0' <= c <= '9'
    case Cjk => '\U{4E00}' <= c <= '\U{9FFF}'
  }

  function RunLen(s: string, cls: CharClass): (k: nat)
    ensures k <= |s|
    ensures forall j :: 0 <= j < k ==> InClass(s[j], cls)
    ensures k == |s| || !InClass(s[k], cls)
  {
    if s == [] || !InClass(s[0], cls) then 0 else 1 + RunLen(s[1..], cls)
  }

  /** `re.findall(r"<cls>{2,}", s)`: the maximal runs of class characters
      that are at least two long, left to right. */
  function Runs(s: string, cls: CharClass): (rs: seq<string>)
    ensures forall r :: r in rs ==> |r| >= 2 && forall j :: 0 <= j < |r| ==> InClass(r[j], cls)
    decreases |s|
  {
    if s == [] then []
    else if !InClass(s[0], cls) then Runs(s[1..], cls)
    else
      var k := RunLen(s, cls);
      (if k >= 2 then [s[..k]] else []) + Runs(s[k..], cls)
  }

  function Min(a: int, b: int): int {
    if a < b then a else b
  }

  /** The bigrams `seg[i:i+2]` for the first `min(len(seg) - 1, 12)` positions. */
  function Bigrams(seg: string): (bs: seq<string>)
    requires |seg| >= 2
    ensures |bs| == Min(|seg| - 1, MaxBigrams) <= MaxBigrams
    ensures forall i :: 0 <= i < |bs| ==> |bs[i]| == 2 && bs[i] == seg[i..i + 2]
  {
    seq(Min(|seg| - 1, MaxBigrams), i requires 0 <= i < Min(|seg| - 1, MaxBigrams) => seg[i..i + 2])
  }

  /** The tokens one CJK segment contributes: the segment, then its bigrams. */
  function SegmentTokens(seg: string): seq<string>
    requires |seg| >= 2
  {
    [seg] + Bigrams(seg)
  }

  function CjkTokens(segs: seq<string>): seq<string>
    requires forall s :: s in segs ==> |s| >= 2
  {
    if segs == [] then [] else SegmentTokens(segs[0]) + CjkTokens(segs[1..])
  }

  /** Every token before de-duplication, in the order the source appends them. */
  function RawTokens(s: string): seq<string> {
    Runs(Lower(s), AsciiAlnum) + CjkTokens(Runs(s, Cjk))
  }

  predicate NoDup<T(==)>(s: seq<T>) {
    forall i, j :: 0 <= i < j < |s| ==> s[i] != s[j]
  }

  /** The de-duplication pass: appends each non-empty token not yet seen,
      stopping once 40 distinct tokens are collected. */
  function Uniq(ts: seq<string>, acc: seq<string>): (r: seq<string>)
    requires NoDup(acc) && |acc| <= MaxTokens
    ensures NoDup(r) && |acc| <= |r| <= MaxTokens
    ensures r[..|acc|] == acc
    ensures forall t :: t in r ==> t in acc || (t in ts && t != "")
    ensures |r| < MaxTokens ==> forall t :: t in ts && t != "" ==> t in r
    decreases |ts|
  {
    if ts == [] || |acc| >= MaxTokens then acc
    else
      var acc' := if ts[0] != "" && ts[0] !in acc then acc + [ts[0]] else acc;
      var r := Uniq(ts[1..], acc');
      UniqShift(ts, acc, acc', r);
      r
  }

  /** One step of the pass: what holds of the rest with the grown
      accumulator holds of the whole token list with the old one. */
  lemma UniqShift(ts: seq<string>, acc: seq<string>, acc': seq<string>, r: seq<string>)
    requires ts != [] && acc' == if ts[0] != "" && ts[0] !in acc then acc + [ts[0]] else acc
    requires |acc'| <= |r| && r[..|acc'|] == acc'
    requires forall t :: t in r ==> t in acc' || (t in ts[1..] && t != "")
    requires |r| < MaxTokens ==> forall t :: t in ts[1..] && t != "" ==> t in r
    ensures |acc| <= |r| && r[..|acc|] == acc
    ensures forall t :: t in r ==> t in acc || (t in ts && t != "")
    ensures |r| < MaxTokens ==> forall t :: t in ts && t != "" ==> t in r
  {
    assert r[..|acc|] == acc by {
      assert r[..|acc'|][..|acc|] == acc'[..|acc|];
    }
    assert forall t :: t in ts ==> t == ts[0] || t in ts[1..];
    assert forall t :: t in acc' ==> t in acc || t == ts[0];
    forall t | t in acc' ensures t in r {
      var j :| 0 <= j < |acc'| && acc'[j] == t;
      assert r[..|acc'|][j] == t;
    }
  }

  /** Position of the first occurrence of `t` in `ts`, or `|ts|` when absent. */
  function IndexIn(ts: seq<string>, t: string): (k: nat)
    ensures k <= |ts| && (k < |ts| <==> t in ts)
    ensures k < |ts| ==> ts[k] == t
    ensures t !in ts[..k]
  {
    if ts == [] then 0
    else if ts[0] == t then 0
    else
      var k := 1 + IndexIn(ts[1..], t);
      assert ts[..k] == [ts[0]] + ts[1..][..k - 1];
      k
  }

  /** The pass keeps the new tokens in the order they first occur. */
  lemma {:induction false} UniqInOrder(ts: seq<string>, acc: seq<string>)
    requires NoDup(acc) && |acc| <= MaxTokens
    ensures forall i, j :: |acc| <= i < j < |Uniq(ts, acc)| ==> IndexIn(ts, Uniq(ts, acc)[i]) < IndexIn(ts, Uniq(ts, acc)[j])
    decreases |ts|
  {
    if ts != [] && |acc| < MaxTokens {
      var acc' := if ts[0] != "" && ts[0] !in acc then acc + [ts[0]] else acc;
      var r := Uniq(ts[1..], acc');
      assert Uniq(ts, acc) == r;
      UniqInOrder(ts[1..], acc');
      assert AddsAfter(acc', r);
      InOrderStep(ts, acc, acc', r);
    }
  }

  /** The pass keeps the earliest tokens: a usable token that first occurs
      before a kept token is kept too. With `UniqInOrder`, the result is the
      first 40 distinct tokens, in order. */
  lemma {:induction false} UniqEarliest(ts: seq<string>, acc: seq<string>)
    requires NoDup(acc) && |acc| <= MaxTokens
    ensures forall t, j ::
              |acc| <= j < |Uniq(ts, acc)| && t != "" && t !in acc && IndexIn(ts, t) < IndexIn(ts, Uniq(ts, acc)[j]) ==>
              t in Uniq(ts, acc)
    decreases |ts|
  {
    if ts != [] && |acc| < MaxTokens {
      var acc' := if ts[0] != "" && ts[0] !in acc then acc + [ts[0]] else acc;
      var r := Uniq(ts[1..], acc');
      assert Uniq(ts, acc) == r;
      UniqEarliest(ts[1..], acc');
      assert AddsAfter(acc', r);
      EarliestStep(ts, acc, acc', r);
    }
  }

  /** What the rest of the pass adds, past the grown accumulator, is new. */
  predicate AddsAfter(acc': seq<string>, r: seq<string>) {
    && NoDup(r) && |acc'| <= |r| && r[..|acc'|] == acc'
    && forall t :: t in r ==> t in acc' || t != ""
  }

  /** One step of `UniqInOrder`: first positions in the rest of the list
      are one less than in the whole list. */
  lemma InOrderStep(ts: seq<string>, acc: seq<string>, acc': seq<string>, r: seq<string>)
    requires ts != [] && acc' == if ts[0] != "" && ts[0] !in acc then acc + [ts[0]] else acc
    requires AddsAfter(acc', r)
    requires forall i, j :: |acc'| <= i < j < |r| ==> IndexIn(ts[1..], r[i]) < IndexIn(ts[1..], r[j])
    ensures forall i, j :: |acc| <= i < j < |r| ==> IndexIn(ts, r[i]) < IndexIn(ts, r[j])
  {
    forall i, j | |acc| <= i < j < |r| ensures IndexIn(ts, r[i]) < IndexIn(ts, r[j]) {
      UniqFresh(ts, acc, acc', r, j);
      if i < |acc'| {
        assert r[..|acc'|][i] == ts[0];
      } else {
        UniqFresh(ts, acc, acc', r, i);
      }
    }
  }

  /** One step of `UniqEarliest`. */
  lemma EarliestStep(ts: seq<string>, acc: seq<string>, acc': seq<string>, r: seq<string>)
    requires ts != [] && acc' == if ts[0] != "" && ts[0] !in acc then acc + [ts[0]] else acc
    requires AddsAfter(acc', r)
    requires forall t, j :: |acc'| <= j < |r| && t != "" && t !in acc' && IndexIn(ts[1..], t) < IndexIn(ts[1..], r[j]) ==> t in r
    ensures forall t, j :: |acc| <= j < |r| && t != "" && t !in acc && IndexIn(ts, t) < IndexIn(ts, r[j]) ==> t in r
  {
    forall t, j | |acc| <= j < |r| && t != "" && t !in acc && IndexIn(ts, t) < IndexIn(ts, r[j])
      ensures t in r
    {
      if t == ts[0] {
        assert r[..|acc'|][|acc|] == t;
      } else if j >= |acc'| {
        UniqFresh(ts, acc, acc', r, j);
        assert t !in acc';
      }
    }
  }

  /** A token the rest of the pass adds is not the first token. */
  lemma UniqFresh(ts: seq<string>, acc: seq<string>, acc': seq<string>, r: seq<string>, i: nat)
    requires ts != [] && acc' == if ts[0] != "" && ts[0] !in acc then acc + [ts[0]] else acc
    requires AddsAfter(acc', r) && |acc'| <= i < |r|
    ensures r[i] != ts[0] && IndexIn(ts, r[i]) == 1 + IndexIn(ts[1..], r[i])
  {
    forall m | 0 <= m < |acc'| ensures acc'[m] != r[i] {
      assert r[..|acc'|][m] == r[m];
    }
    assert r[i] in r && r[i] !in acc';
    if ts[0] != "" && ts[0] !in acc {
      assert acc'[|acc|] == ts[0];
    }
  }

  /** `_extract_tokens`. */
  function ExtractTokens(text: string): (r: seq<string>)
    ensures NoDup(r) && |r| <= MaxTokens
    ensures IsBlank(text) ==> r == []
    ensures forall t :: t in r ==> t in RawTokens(Strip(text)) && t != ""
    ensures |r| < MaxTokens ==> forall t :: t in RawTokens(Strip(text)) ==> t in r
  {
    var s := Strip(text);
    if s == [] then [] else RawTokensNonEmpty(s); Uniq(RawTokens(s), [])
  }

  lemma RawTokensNonEmpty(s: string)
    ensures forall t :: t in RawTokens(s) ==> |t| >= 2
  {
    CjkTokensLong(Runs(s, Cjk));
  }

  lemma {:induction false} CjkTokensLong(segs: seq<string>)
    requires forall s :: s in segs ==> |s| >= 2
    ensures forall t :: t in CjkTokens(segs) ==> |t| >= 2
  {
    if segs != [] {
      CjkTokensLong(segs[1..]);
      var b := Bigrams(segs[0]);
      assert forall t :: t in b ==> |t| == 2;
    }
  }

  /** A CJK segment contributes itself and at most 12 bigrams, each a
      two-character piece of the segment. */
  lemma SegmentTokensBounded(seg: string)
    requires |seg| >= 2
    ensures SegmentTokens(seg)[0] == seg
    ensures |SegmentTokens(seg)| <= 1 + MaxBigrams
    ensures forall i :: 1 <= i < |SegmentTokens(seg)| ==>
              var t := SegmentTokens(seg)[i]; |t| == 2 && OccursAt(seg, t, i - 1)
  {
  }

  // ---------------------------------------------------------------------
  // _rewrite_query

  /** The filler phrases, removed in this order. */
  const StopPhrases: seq<string> := [
    "请问一下", "想问一下", "问一下", "想知道", "我想问", "我想知道",
    "可不可以", "能不能", "怎么样", "好不好",
    "帮我看看", "帮我查查", "帮我问问",
    "麻烦问一下", "麻烦帮我",
    "你好", "您好", "请问", "我想", "帮我", "麻烦",
    "谢谢", "感谢", "好的", "可以吗", "行吗", "好吗"
  ]

  /** The synonym table in its declaration order: user term, search term. */
  const Synonyms: seq<(string, string)> := [
    ("促销活动", "优惠活动"), ("促销", "优惠活动"), ("活动", "优惠活动"),
    ("有什么活动", "优惠活动"), ("什么活动", "优惠活动"),
    ("参加活动", "优惠活动"), ("参加", "参与"),
    ("多少钱", "价格"), ("什么价", "价格"), ("价位", "价格"),
    ("贵不贵", "价格"), ("便宜", "优惠"), ("打折", "折扣优惠"),
    ("优惠券", "优惠券"), ("满减", "满减活动"), ("红包", "优惠红包"),
    ("发货", "物流配送"), ("快递", "物流"), ("送货", "配送"),
    ("到货", "送达"), ("几天到", "配送时间"), ("多久到", "配送时间"),
    ("包邮", "免运费"), ("邮费", "运费"), ("运费多少", "运费"),
    ("退货", "退换货"), ("换货", "退换货"), ("退款", "退款"),
    ("保修", "质保"), ("售后", "售后服务"), ("维修", "维修"),
    ("坏了", "故障"), ("不能用", "故障"), ("质量问题", "质量"),
    ("有货吗", "库存"), ("有没有货", "库存"), ("缺货", "库存"),
    ("尺码", "尺寸"), ("大小", "尺寸"), ("颜色", "颜色"),
    ("款式", "款式"), ("型号", "型号"), ("规格", "规格"),
    ("付款", "支付"), ("怎么付", "支付方式"),
    ("分期", "分期付款"), ("花呗", "支付"), ("信用卡", "支付"),
    ("订单", "订单"), ("查单", "订单查询"), ("取消订单", "取消订单"),
    ("修改订单", "修改订单"), ("订单状态", "订单查询"),
    ("密码", "密码"), ("登录", "登录"), ("注册", "注册"), ("账号", "账户")
  ]

  predicate NonEmptyPhrases(phrases: seq<string>) {
    forall p :: p in phrases ==> |p| > 0
  }

  /** Replaces every phrase by a space, one phrase after the other. */
  function RemovePhrases(q: string, phrases: seq<string>): string
    requires NonEmptyPhrases(phrases)
    decreases |phrases|
  {
    if phrases == [] then q else RemovePhrases(Replace(q, phrases[0], " "), phrases[1..])
  }

  /** Removing a list of phrases is removing the first part's phrases,
      then the second part's, each in its order. */
  lemma {:induction false} RemovePhrasesAppend(q: string, a: seq<string>, b: seq<string>)
    requires NonEmptyPhrases(a) && NonEmptyPhrases(b)
    ensures NonEmptyPhrases(a + b)
    ensures RemovePhrases(q, a + b) == RemovePhrases(RemovePhrases(q, a), b)
    decreases |a|
  {
    if a == [] {
      assert a + b == b;
    } else {
      assert (a + b)[0] == a[0] && (a + b)[1..] == a[1..] + b;
      RemovePhrasesAppend(Replace(q, a[0], " "), a[1..], b);
    }
  }

  /** One phrase is removed by replacing each of its occurrences, left to
      right, by a space. */
  lemma RemovePhrasesOne(q: string, p: string)
    requires |p| > 0
    ensures RemovePhrases(q, [p]) == Replace(q, p, " ")
  {
    assert [p][1..] == [];
  }

  lemma StopPhrasesNonEmpty()
    ensures NonEmptyPhrases(StopPhrases)
  {
  }

  /** The cleaned query: the given stop phrases removed, whitespace collapsed;
      the raw query when fewer than two characters remain. */
  function CleanWith(query: string, stops: seq<string>): (c: string)
    requires NonEmptyPhrases(stops)
    ensures var removed := Strip(CollapseSpaces(RemovePhrases(query, stops)));
            c == if |removed| < 2 then query else removed
    ensures |c| < 2 ==> c == query
    ensures c != query ==> |c| >= 2 && c == Strip(c)
  {
    var c := Strip(CollapseSpaces(RemovePhrases(query, stops)));
    if |c| < 2 then query else StripOfTrimmed(c); c
  }

  /** The synonym pass: the search term of every user term found in the raw
      query, unless the cleaned query already contains it or it was already added. */
  function Expand(query: string, cleaned: string, syns: seq<(string, string)>, acc: seq<string>): (r: seq<string>)
    requires NoDup(acc)
    ensures NoDup(r) && |acc| <= |r| && r[..|acc|] == acc
    ensures forall t :: t in r ==>
              (t in acc || (!Contains(cleaned, t) && exists k :: (k, t) in syns && Contains(query, k)))
    ensures forall k, v :: (k, v) in syns && Contains(query, k) && !Contains(cleaned, v) ==> v in r
    ensures forall t :: t in acc ==> t in r
    decreases |syns|
  {
    if syns == [] then acc
    else
      var (k, v) := syns[0];
      var acc' := if Contains(query, k) && !Contains(cleaned, v) && v !in acc then acc + [v] else acc;
      var r := Expand(query, cleaned, syns[1..], acc');
      assert r[..|acc|] == acc by {
        assert r[..|acc'|][..|acc|] == acc'[..|acc|];
      }
      assert forall t :: t in acc' ==> t in r;
      assert forall kk, vv :: (kk, vv) in syns ==> (kk, vv) == syns[0] || (kk, vv) in syns[1..];
      r
  }

  /** The query rewrite for given tables: the cleaned query, followed by a
      space and the expanded search terms when there are any. Every expanded
      term appears once, is the search term of a user term found in the raw
      query and is not part of the cleaned query; every such term is expanded. */
  function RewriteWith(query: string, stops: seq<string>, syns: seq<(string, string)>): (r: string)
    requires NonEmptyPhrases(stops)
    ensures var cleaned := CleanWith(query, stops);
            var expanded := Expand(query, cleaned, syns, []);
            && StartsWith(r, cleaned)
            && (expanded == [] <==> r == cleaned)
            && (expanded != [] ==> r[|cleaned|..] == " " + Join(expanded, " "))
            && NoDup(expanded)
            && (forall t :: t in expanded ==>
                  !Contains(cleaned, t) && exists k :: (k, t) in syns && Contains(query, k))
            && (forall k, v :: (k, v) in syns && Contains(query, k) && !Contains(cleaned, v) ==> v in expanded)
  {
    var cleaned := CleanWith(query, stops);
    var expanded := Expand(query, cleaned, syns, []);
    if expanded != [] then
      var tail := " " + Join(expanded, " ");
      var r := cleaned + tail;
      assert r[..|cleaned|] == cleaned;
      assert r[|cleaned|..] == tail;
      r
    else cleaned
  }

  /** `_rewrite_query` with the source's stop-phrase and synonym tables. */
  function RewriteQuery(query: string): string {
    StopPhrasesNonEmpty();
    RewriteWith(query, StopPhrases, Synonyms)
  }
}
