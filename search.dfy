/** The generic filtered and ranked search of `core/search.py`. Items are
    dictionaries in insertion order; a filter comparison Python would raise
    on makes the whole search fail (None). */
module Search {
  import opened Wrappers
  import opened PyText
  import opened QueryText
  import opened Ranking

  /** A field value: None, a number, a string, or a list (or tuple). */
  datatype Field = Null | Num(x: real) | Text(s: string) | Sequence(elems: seq<Field>, tuple: bool)

  /** A searched item: its fields in insertion order. */
  datatype Item = Item(fields: seq<(string, Field)>)

  /** `FUZZY` and `REGEX` scores come from `difflib` and `re`, which are
      not modelled: they are given by an oracle. */
  datatype Mode = Exact | ContainsMode | Fuzzy | Regex | Prefix | Suffix

  type Oracle = (Mode, string, string) -> (bool, real)

  datatype Filter = Filter(field: string, value: Field, operator: string)

  /** `SearchResult` without highlights, which the search never fills. */
  datatype Hit = Hit(item: Item, score: real, matched: seq<string>)

  /** `_get_field_value` on a dictionary: `item.get(field)`. */
  function Get(item: Item, field: string): Field {
    GetIn(item.fields, field)
  }

  function GetIn(fs: seq<(string, Field)>, field: string): Field {
    if fs == [] then Null
    else if fs[0].0 == field then fs[0].1
    else GetIn(fs[1..], field)
  }

  function Min(a: real, b: real): real {
    if a <= b then a else b
  }

  /** `_match_text(text, query, mode)`: whether it matched, and the score. */
  function MatchText(text: string, query: string, mode: Mode, oracle: Oracle): (bool, real) {
    if text == "" || query == "" then (false, 0.0)
    else
      var t := Lower(text);
      var q := Lower(query);
      match mode
      case Exact => if t == q then (true, 1.0) else (false, 0.0)
      case ContainsMode =>
        if Contains(t, q) then
          var pos := Find(t, q);
          (true, Min(0.5 + 0.3 * (1.0 - pos as real / |text| as real) + 0.2 * (|query| as real / |text| as real), 1.0))
        else (false, 0.0)
      case Prefix => if StartsWith(t, q) then (true, 0.9) else (false, 0.0)
      case Suffix => if EndsWith(t, q) then (true, 0.8) else (false, 0.0)
      case _ => oracle(mode, text, query)
  }

  /** The four modelled modes: empty input never matches; EXACT is
      case-insensitive equality scoring 1.0; PREFIX scores 0.9 and SUFFIX
      0.8; CONTAINS scores between 0.5 and 1.0. */
  lemma MatchTextFacts(text: string, query: string, mode: Mode, oracle: Oracle)
    ensures text == "" || query == "" ==> MatchText(text, query, mode, oracle) == (false, 0.0)
    ensures mode == Exact && text != "" && query != "" ==>
              MatchText(text, query, mode, oracle) == if Lower(text) == Lower(query) then (true, 1.0) else (false, 0.0)
    ensures mode == Prefix && text != "" && query != "" ==>
              MatchText(text, query, mode, oracle) == if StartsWith(Lower(text), Lower(query)) then (true, 0.9) else (false, 0.0)
    ensures mode == Suffix && text != "" && query != "" ==>
              MatchText(text, query, mode, oracle) == if EndsWith(Lower(text), Lower(query)) then (true, 0.8) else (false, 0.0)
    ensures mode == ContainsMode && text != "" && query != "" ==>
              var (m, score) := MatchText(text, query, mode, oracle);
              && (m <==> Contains(Lower(text), Lower(query)))
              && (m ==> 0.5 <= score <= 1.0)
              && (!m ==> score == 0.0)
  {
    if mode == ContainsMode && text != "" && query != "" && Contains(Lower(text), Lower(query)) {
      var pos := Find(Lower(text), Lower(query));
      assert pos + |query| <= |text|;
      ContainsScoreBounds(pos, |query|, |text|);
    }
  }

  /** The CONTAINS score of a match at `pos` lies in [0.5, 1.0]. */
  lemma ContainsScoreBounds(pos: int, qlen: nat, tlen: nat)
    requires 0 <= pos && pos + qlen <= tlen && tlen > 0
    ensures 0.5 <= Min(0.5 + 0.3 * (1.0 - pos as real / tlen as real) + 0.2 * (qlen as real / tlen as real), 1.0) <= 1.0
  {
    var n := tlen as real;
    var a := pos as real / n;
    var b := qlen as real / n;
    assert 0.0 <= a <= 1.0 by {
      assert pos as real <= n;
    }
    assert 0.0 <= b;
    assert 0.5 + 0.3 * (1.0 - a) + 0.2 * b >= 0.5;
  }

  /** Python's `a < b` on two field values: numbers by value, strings
      lexicographically, and a list with a list or a tuple with a tuple
      element by element; any other pairing raises (None). */
  function Less(a: Field, b: Field): Option<bool>
    decreases a
  {
    if a.Num? && b.Num? then Some(a.x < b.x)
    else if a.Text? && b.Text? then Some(TextLess(a.s, b.s))
    else if a.Sequence? && b.Sequence? && a.tuple == b.tuple then SeqLess(a.elems, b.elems)
    else None
  }

  /** Sequence comparison: the first elements that differ decide, and
      their comparison may raise; when one is a prefix of the other, the
      shorter is smaller. */
  function SeqLess(xs: seq<Field>, ys: seq<Field>): Option<bool>
    decreases xs
  {
    if xs == [] || ys == [] then Some(|xs| < |ys|)
    else if xs[0] != ys[0] then Less(xs[0], ys[0])
    else SeqLess(xs[1..], ys[1..])
  }

  /** The ordering is asymmetric wherever it is defined: when `a < b`,
      `b < a` is defined and false. */
  lemma {:induction false} LessAsymmetric(a: Field, b: Field)
    requires Less(a, b) == Some(true)
    ensures Less(b, a) == Some(false)
    decreases a
  {
    if a.Text? && b.Text? {
      TextLessOrder(a.s, b.s, b.s);
    } else if a.Sequence? {
      SeqLessAsymmetric(a.elems, b.elems);
    }
  }

  lemma {:induction false} SeqLessAsymmetric(xs: seq<Field>, ys: seq<Field>)
    requires SeqLess(xs, ys) == Some(true)
    ensures SeqLess(ys, xs) == Some(false)
    decreases xs
  {
    if xs != [] && ys != [] {
      if xs[0] != ys[0] {
        LessAsymmetric(xs[0], ys[0]);
      } else {
        SeqLessAsymmetric(xs[1..], ys[1..]);
      }
    }
  }

  /** `["a", "b"] > ["a"]`: a `gt` filter with a list value keeps an item
      whose list extends it. */
  lemma ListGreaterThanPrefix()
    ensures ApplyFilter(Item([("tags", Sequence([Text("a"), Text("b")], false))]),
                        Filter("tags", Sequence([Text("a")], false), "gt")) == Some(true)
  {
    var short, long := [Text("a")], [Text("a"), Text("b")];
    assert SeqLess(short[1..], long[1..]) == Some(true);
    assert SeqLess(short, long) == Some(true);
  }

  /** `value in container`: membership in a list, a substring of a
      string (which needs a string on the left), otherwise raises. */
  function In(value: Field, container: Field): Option<bool> {
    match container
    case Sequence(es, _) => Some(value in es)
    case Text(s) => if value.Text? then Some(Contains(s, value.s)) else None
    case _ => None
  }

  function Negate(b: Option<bool>): Option<bool> {
    match b
    case Some(x) => Some(!x)
    case None => None
  }

  /** `_apply_filter`: None where the comparison raises. */
  function ApplyFilter(item: Item, f: Filter): Option<bool> {
    var value := Get(item, f.field);
    var op := f.operator;
    if op == "eq" then Some(value == f.value)
    else if op == "ne" then Some(value != f.value)
    else if op == "gt" then (if value.Null? then Some(false) else Less(f.value, value))
    else if op == "lt" then (if value.Null? then Some(false) else Less(value, f.value))
    else if op == "gte" then (if value.Null? then Some(false) else Negate(Less(value, f.value)))
    else if op == "lte" then (if value.Null? then Some(false) else Negate(Less(f.value, value)))
    else if op == "in" then In(value, f.value)
    else if op == "contains" then
      if value.Text? then (if f.value.Text? then Some(Contains(Lower(value.s), Lower(f.value.s))) else None)
      else if value.Sequence? then Some(f.value in value.elems)
      else Some(true)
    else Some(true)
  }

  /** The ordering comparisons are false against a missing value, and an
      unknown operator or `contains` on a value that is neither a string
      nor a list lets every item through. */
  lemma ApplyFilterFacts(item: Item, f: Filter)
    ensures f.operator in {"gt", "lt", "gte", "lte"} && Get(item, f.field).Null? ==> ApplyFilter(item, f) == Some(false)
    ensures f.operator !in {"eq", "ne", "gt", "lt", "gte", "lte", "in", "contains"} ==> ApplyFilter(item, f) == Some(true)
    ensures f.operator == "contains" && !Get(item, f.field).Text? && !Get(item, f.field).Sequence? ==> ApplyFilter(item, f) == Some(true)
    ensures f.operator == "eq" ==> ApplyFilter(item, f) == Some(Get(item, f.field) == f.value)
  {
  }

  /** `all(self._apply_filter(item, f) for f in self._filters)`: stops at
      the first filter that fails; a raising one ends the search. */
  function PassesAll(item: Item, filters: seq<Filter>): Option<bool> {
    if filters == [] then Some(true)
    else
      match ApplyFilter(item, filters[0])
      case None => None
      case Some(false) => Some(false)
      case Some(true) => PassesAll(item, filters[1..])
  }

  lemma {:induction false} PassesAllEach(item: Item, filters: seq<Filter>)
    ensures PassesAll(item, filters) == Some(true) <==> forall f :: f in filters ==> ApplyFilter(item, f) == Some(true)
  {
    if filters != [] {
      PassesAllEach(item, filters[1..]);
      assert forall f :: f in filters <==> f == filters[0] || f in filters[1..];
    }
  }

  /** `_get_searchable_fields` on a dictionary: the keys whose value is a
      string or a list (not a tuple). */
  function Searchable(fs: seq<(string, Field)>): seq<string> {
    if fs == [] then []
    else
      var v := fs[0].1;
      (if v.Text? || (v.Sequence? && !v.tuple) then [fs[0].0] else []) + Searchable(fs[1..])
  }

  /** The strings a field value offers to the matcher: itself, or the
      string elements of a list or tuple. */
  function Texts(v: Field): seq<string> {
    match v
    case Text(s) => [s]
    case Sequence(es, _) => TextElems(es)
    case _ => []
  }

  function TextElems(es: seq<Field>): (r: seq<string>)
    ensures forall t :: t in r <==> Text(t) in es
  {
    if es == [] then []
    else (if es[0].Text? then [es[0].s] else []) + TextElems(es[1..])
  }

  /** The best score so far and the fields that raised it, in order. */
  type Best = (real, seq<string>)

  /** One matched text: a strictly better score is kept, and its field
      recorded once. */
  function Step(acc: Best, field: string, text: string, query: string, mode: Mode, oracle: Oracle): Best {
    var (m, score) := MatchText(text, query, mode, oracle);
    if m && score > acc.0 then (score, if field in acc.1 then acc.1 else acc.1 + [field]) else acc
  }

  function ScanTexts(acc: Best, field: string, texts: seq<string>, query: string, mode: Mode, oracle: Oracle): Best
    decreases |texts|
  {
    if texts == [] then acc
    else ScanTexts(Step(acc, field, texts[0], query, mode, oracle), field, texts[1..], query, mode, oracle)
  }

  /** The field loop of `search` for one item. */
  function ScanFields(acc: Best, item: Item, fields: seq<string>, query: string, mode: Mode, oracle: Oracle): Best
    decreases |fields|
  {
    if fields == [] then acc
    else ScanFields(ScanTexts(acc, fields[0], Texts(Get(item, fields[0])), query, mode, oracle), item, fields[1..], query, mode, oracle)
  }

  /** A text matches with this score. */
  predicate Scores(text: string, query: string, mode: Mode, oracle: Oracle, score: real) {
    MatchText(text, query, mode, oracle).0 && MatchText(text, query, mode, oracle).1 == score
  }

  /** The scan's best score is at least every matching text's score, the
      recorded fields are distinct fields that were searched, and a
      recorded field's best is a real match. */
  lemma {:induction false} ScanTextsFacts(acc: Best, field: string, texts: seq<string>, query: string, mode: Mode, oracle: Oracle)
    requires NoDup(acc.1)
    ensures var r := ScanTexts(acc, field, texts, query, mode, oracle);
            && NoDup(r.1)
            && r.0 >= acc.0
            && (forall f :: f in r.1 ==> f in acc.1 || f == field)
            && (forall f :: f in acc.1 ==> f in r.1)
            && (forall t :: t in texts && MatchText(t, query, mode, oracle).0 ==> MatchText(t, query, mode, oracle).1 <= r.0)
            && (r.0 != acc.0 ==> field in r.1 && exists t :: t in texts && Scores(t, query, mode, oracle, r.0))
    decreases |texts|
  {
    if texts != [] {
      var s := Step(acc, field, texts[0], query, mode, oracle);
      assert NoDup(s.1) by {
        if field !in acc.1 && s.1 == acc.1 + [field] {
          assert forall i :: 0 <= i < |acc.1| ==> acc.1[i] in acc.1;
        }
      }
      ScanTextsFacts(s, field, texts[1..], query, mode, oracle);
      var r := ScanTexts(s, field, texts[1..], query, mode, oracle);
      assert forall t :: t in texts <==> t == texts[0] || t in texts[1..];
      if r.0 != acc.0 && r.0 == s.0 {
        assert Scores(texts[0], query, mode, oracle, r.0);
        assert field in s.1;
      }
    }
  }

  lemma {:induction false} ScanFieldsFacts(acc: Best, item: Item, fields: seq<string>, query: string, mode: Mode, oracle: Oracle)
    requires NoDup(acc.1)
    ensures var r := ScanFields(acc, item, fields, query, mode, oracle);
            && NoDup(r.1)
            && r.0 >= acc.0
            && (forall f :: f in r.1 ==> f in acc.1 || f in fields)
            && (forall f :: f in acc.1 ==> f in r.1)
            && (forall f, t :: f in fields && t in Texts(Get(item, f)) && MatchText(t, query, mode, oracle).0 ==>
                  MatchText(t, query, mode, oracle).1 <= r.0)
            && (r.0 != acc.0 ==> r.1 != [])
    decreases |fields|
  {
    if fields != [] {
      var s := ScanTexts(acc, fields[0], Texts(Get(item, fields[0])), query, mode, oracle);
      ScanTextsFacts(acc, fields[0], Texts(Get(item, fields[0])), query, mode, oracle);
      ScanFieldsFacts(s, item, fields[1..], query, mode, oracle);
      assert forall f :: f in fields <==> f == fields[0] || f in fields[1..];
      if s.0 != acc.0 {
        assert fields[0] in s.1;
      }
    }
  }

  /** What one item contributes to the results: nothing, a hit, or a
      failure where a filter raises. */
  function Consider(item: Item, filters: seq<Filter>, searchFields: seq<string>, query: string, mode: Mode,
                    minScore: real, oracle: Oracle): Option<seq<Hit>> {
    match PassesAll(item, filters)
    case None => None
    case Some(false) => Some([])
    case Some(true) =>
      if query == "" then Some([Hit(item, 1.0, [])])
      else
        var (best, matched) := ItemScan(item, searchFields, query, mode, oracle);
        if best >= minScore && matched != [] then Some([Hit(item, best, matched)]) else Some([])
  }

  /** The fields searched in an item: the given ones, or its searchable
      ones when none are given. */
  function SearchedFields(item: Item, searchFields: seq<string>): seq<string> {
    if searchFields != [] then searchFields else Searchable(item.fields)
  }

  /** An item's best score and the fields that raised it. */
  function ItemScan(item: Item, searchFields: seq<string>, query: string, mode: Mode, oracle: Oracle): Best {
    ScanFields((0.0, []), item, SearchedFields(item, searchFields), query, mode, oracle)
  }

  /** An item a non-empty query returns: it passes every filter, some field
      raised its score, and its best reaches the minimum. */
  predicate Qualifies(item: Item, filters: seq<Filter>, searchFields: seq<string>, query: string, mode: Mode,
                      minScore: real, oracle: Oracle) {
    && PassesAll(item, filters) == Some(true)
    && ItemScan(item, searchFields, query, mode, oracle).1 != []
    && ItemScan(item, searchFields, query, mode, oracle).0 >= minScore
  }

  /** The qualifying items, in order. */
  function Matching(items: seq<Item>, filters: seq<Filter>, searchFields: seq<string>, query: string, mode: Mode,
                    minScore: real, oracle: Oracle): seq<Item> {
    if items == [] then []
    else
      var last := items[|items| - 1];
      Matching(items[..|items| - 1], filters, searchFields, query, mode, minScore, oracle)
      + (if Qualifies(last, filters, searchFields, query, mode, minScore, oracle) then [last] else [])
  }

  /** An item that passes the filters and has a searched text matching
      with a positive score of at least the minimum qualifies. */
  lemma MatchQualifies(item: Item, filters: seq<Filter>, searchFields: seq<string>, query: string, mode: Mode,
                       minScore: real, oracle: Oracle, f: string, t: string)
    requires PassesAll(item, filters) == Some(true)
    requires f in SearchedFields(item, searchFields) && t in Texts(Get(item, f))
    requires MatchText(t, query, mode, oracle).0 && 0.0 < MatchText(t, query, mode, oracle).1
    requires minScore <= MatchText(t, query, mode, oracle).1
    ensures Qualifies(item, filters, searchFields, query, mode, minScore, oracle)
  {
    ScanFieldsFacts((0.0, []), item, SearchedFields(item, searchFields), query, mode, oracle);
  }

  /** The item loop of `search`, before sorting. */
  function Collected(items: seq<Item>, filters: seq<Filter>, searchFields: seq<string>, query: string, mode: Mode,
                     minScore: real, oracle: Oracle): Option<seq<Hit>>
    decreases |items|
  {
    if items == [] then Some([])
    else
      match Collected(items[..|items| - 1], filters, searchFields, query, mode, minScore, oracle)
      case None => None
      case Some(acc) =>
        match Consider(items[|items| - 1], filters, searchFields, query, mode, minScore, oracle)
        case None => None
        case Some(h) => Some(acc + h)
  }

  /** The order the results are returned in: by the sort key (descending
      when `reverse`) if one is set, else by descending score. Both sorts
      are stable; an ascending stable sort is a descending one on the
      negated key. */
  function Ordered(hits: seq<Hit>, sortKey: Option<Item -> real>, reverse: bool): (r: seq<Hit>)
    ensures multiset(r) == multiset(hits)
  {
    var keyed := match sortKey
      case None => seq(|hits|, i requires 0 <= i < |hits| => (hits[i], hits[i].score))
      case Some(key) => seq(|hits|, i requires 0 <= i < |hits| => (hits[i], if reverse then key(hits[i].item) else -key(hits[i].item)));
    var sorted := SortDesc(keyed);
    assert FirstsOf(keyed) == hits;
    FirstsPerm(keyed, sorted);
    FirstsOf(sorted)
  }

  /** `search(query, mode, min_score)`. */
  function SearchSpec(items: seq<Item>, filters: seq<Filter>, searchFields: seq<string>, sortKey: Option<Item -> real>,
                      reverse: bool, query: string, mode: Mode, minScore: real, oracle: Oracle): Option<seq<Hit>> {
    match Collected(items, filters, searchFields, query, mode, minScore, oracle)
    case None => None
    case Some(hits) => Some(Ordered(hits, sortKey, reverse))
  }

  /** Every collected hit passed all filters; with a query it has a
      matched field and at least the minimum score, without one it scores
      1.0 with no matched fields. */
  lemma {:induction false} CollectedFacts(items: seq<Item>, filters: seq<Filter>, searchFields: seq<string>, query: string,
                                          mode: Mode, minScore: real, oracle: Oracle)
    ensures var r := Collected(items, filters, searchFields, query, mode, minScore, oracle);
            r.Some? ==> forall h :: h in r.value ==>
              && h.item in items
              && PassesAll(h.item, filters) == Some(true)
              && (query != "" ==> h.matched != [] && h.score >= minScore && NoDup(h.matched))
              && (query == "" ==> h.score == 1.0 && h.matched == [])
    decreases |items|
  {
    if items != [] {
      var init := items[..|items| - 1];
      var last := items[|items| - 1];
      CollectedFacts(init, filters, searchFields, query, mode, minScore, oracle);
      assert forall x :: x in init ==> x in items;
      if query != "" && PassesAll(last, filters) == Some(true) {
        var fields := if searchFields != [] then searchFields else Searchable(last.fields);
        ScanFieldsFacts((0.0, []), last, fields, query, mode, oracle);
      }
    }
  }

  /** The items that pass every filter, in order. */
  function Filtered(items: seq<Item>, filters: seq<Filter>): seq<Item> {
    if items == [] then []
    else Filtered(items[..|items| - 1], filters) + (if PassesAll(items[|items| - 1], filters) == Some(true) then [items[|items| - 1]] else [])
  }

  /** An empty query returns every item that passes the filters, in order,
      each scoring 1.0. */
  lemma {:induction false} EmptyQueryKeepsFiltered(items: seq<Item>, filters: seq<Filter>, searchFields: seq<string>,
                                                   mode: Mode, minScore: real, oracle: Oracle)
    requires Collected(items, filters, searchFields, "", mode, minScore, oracle).Some?
    ensures var hits := Collected(items, filters, searchFields, "", mode, minScore, oracle).value;
            && |hits| == |Filtered(items, filters)|
            && forall i :: 0 <= i < |hits| ==> hits[i] == Hit(Filtered(items, filters)[i], 1.0, [])
    decreases |items|
  {
    if items != [] {
      EmptyQueryKeepsFiltered(items[..|items| - 1], filters, searchFields, mode, minScore, oracle);
    }
  }

  /** A non-empty query returns every qualifying item, in order, once per
      occurrence, with its best score and the fields that raised it. */
  lemma {:induction false} QueryKeepsMatching(items: seq<Item>, filters: seq<Filter>, searchFields: seq<string>,
                                              query: string, mode: Mode, minScore: real, oracle: Oracle)
    requires query != ""
    requires Collected(items, filters, searchFields, query, mode, minScore, oracle).Some?
    ensures var hits := Collected(items, filters, searchFields, query, mode, minScore, oracle).value;
            var ms := Matching(items, filters, searchFields, query, mode, minScore, oracle);
            && |hits| == |ms|
            && forall i :: 0 <= i < |hits| ==>
                 hits[i] == Hit(ms[i], ItemScan(ms[i], searchFields, query, mode, oracle).0,
                                ItemScan(ms[i], searchFields, query, mode, oracle).1)
    decreases |items|
  {
    if items != [] {
      QueryKeepsMatching(items[..|items| - 1], filters, searchFields, query, mode, minScore, oracle);
    }
  }

  /** Without a sort key the results come by descending score. */
  lemma OrderedByScore(hits: seq<Hit>, reverse: bool)
    ensures var r := Ordered(hits, None, reverse);
            forall i, j :: 0 <= i < j < |r| ==> r[i].score >= r[j].score
  {
    var keyed := seq(|hits|, i requires 0 <= i < |hits| => (hits[i], hits[i].score));
    var sorted := SortDesc(keyed);
    assert forall x :: x in multiset(sorted) ==> x in multiset(keyed);
    forall k | 0 <= k < |sorted| ensures sorted[k].1 == sorted[k].0.score {
      assert sorted[k] in multiset(keyed);
    }
  }

  /** `AdvancedSearch`: the items are fixed; the filters and the sort key
      change. */
  class AdvancedSearch {
    const items: seq<Item>
    const searchFields: seq<string>
    var filters: seq<Filter>
    var sortKey: Option<Item -> real>
    var sortReverse: bool

    constructor (items: seq<Item>, searchFields: seq<string>)
      ensures this.items == items && this.searchFields == searchFields
      ensures filters == [] && sortKey == None && !sortReverse
    {
      this.items := items;
      this.searchFields := searchFields;
      filters := [];
      sortKey := None;
      sortReverse := false;
    }

    /** `filter(field, value, operator)`. */
    method AddFilter(field: string, value: Field, operator: string)
      modifies this`filters
      ensures filters == old(filters) + [Filter(field, value, operator)]
    {
      filters := filters + [Filter(field, value, operator)];
    }

    /** `sort(key, reverse)`; keys are numbers here. */
    method SetSort(key: Item -> real, reverse: bool)
      modifies this`sortKey, this`sortReverse
      ensures sortKey == Some(key) && sortReverse == reverse
    {
      sortKey := Some(key);
      sortReverse := reverse;
    }

    /** `clear_filters`. */
    method ClearFilters()
      modifies this`filters
      ensures filters == []
    {
      filters := [];
    }

    /** `reset`: no filters, no sort key, ascending. */
    method Reset()
      modifies this`filters, this`sortKey, this`sortReverse
      ensures filters == [] && sortKey == None && !sortReverse
    {
      filters := [];
      sortKey := None;
      sortReverse := false;
    }

    /** `search(query, mode, min_score)`: None where a filter raises. */
    method Run(query: string, mode: Mode, minScore: real, oracle: Oracle) returns (r: Option<seq<Hit>>)
      ensures r == SearchSpec(items, filters, searchFields, sortKey, sortReverse, query, mode, minScore, oracle)
    {
      var results: seq<Hit> := [];
      var i := 0;
      while i < |items|
        invariant 0 <= i <= |items|
        invariant Collected(items[..i], filters, searchFields, query, mode, minScore, oracle) == Some(results)
      {
        assert items[..i + 1][..i] == items[..i];
        var h := Consider(items[i], filters, searchFields, query, mode, minScore, oracle);
        if h.None? {
          assert Collected(items[..i + 1], filters, searchFields, query, mode, minScore, oracle) == None;
          NoneStays(items, i + 1, filters, searchFields, query, mode, minScore, oracle);
          assert items[..|items|] == items;
          return None;
        }
        results := results + h.value;
        i := i + 1;
      }
      assert items[..|items|] == items;
      r := Some(Ordered(results, sortKey, sortReverse));
    }
  }

  /** Once a filter has raised, the search has failed whatever follows. */
  lemma {:induction false} NoneStays(items: seq<Item>, k: nat, filters: seq<Filter>, searchFields: seq<string>, query: string,
                                     mode: Mode, minScore: real, oracle: Oracle)
    requires k <= |items|
    requires Collected(items[..k], filters, searchFields, query, mode, minScore, oracle) == None
    ensures Collected(items, filters, searchFields, query, mode, minScore, oracle) == None
    decreases |items| - k
  {
    if k < |items| {
      assert items[..k + 1][..k] == items[..k];
      NoneStays(items, k + 1, filters, searchFields, query, mode, minScore, oracle);
    } else {
      assert items[..k] == items;
    }
  }
}
