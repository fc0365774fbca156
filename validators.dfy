/** The input validators of `core/validators.py`: per-field checks that
    return a cleaned value or a problem, and the two record validators that
    collect them. The untyped Python argument is a `Value`; `str()`,
    `int()` and truthiness are written out for it. */
module Validators {
  import opened Wrappers
  import opened PyText
  import opened KnowledgeText

  /** A Python value as the validators receive it. `Float` carries its
      `repr`, because float formatting is not part of this model; `Other`
      stands for any other object (a dict, a tuple), given by its `repr`
      and its truth value. */
  datatype Value =
    | Null
    | Bool(b: bool)
    | Int(i: int)
    | Float(x: real, repr: string)
    | Str(s: string)
    | List(elems: seq<Value>)
    | Other(text: string, truthy: bool)

  /** What a failed check reports, in place of the message text. */
  datatype Problem =
    | Required(field: string)
    | TooLong(field: string, limit: int)
    | BelowMinimum(field: string, bound: int)
    | AboveMaximum(field: string, bound: int)
    | NotAnInteger
    | BadKeywordFormat
    | TooManyKeywords(limit: int)
    | BadPhone

  /** `ValidationResult`: valid with the cleaned value, or the problem. */
  datatype Checked<T> = Valid(value: T) | Invalid(problem: Problem)

  const MinStock := 0
  const MaxStock := 9999999
  const MaxNameLength := 200
  const MaxDescriptionLength := 5000
  const MaxQuestionLength := 500
  const MaxAnswerLength := 10000
  const MaxKeywordLength := 50
  const MaxKeywordsCount := 20
  const MaxCategoryLength := 50

  /** `bool(v)`. */
  predicate Truthy(v: Value) {
    match v
    case Null => false
    case Bool(b) => b
    case Int(i) => i != 0
    case Float(x, _) => x != 0.0
    case Str(s) => s != ""
    case List(e) => e != []
    case Other(_, t) => t
  }

  /** `repr(v)`; strings are quoted without escaping. */
  function Repr(v: Value): string
    decreases v
  {
    match v
    case Null => "None"
    case Bool(b) => if b then "True" else "False"
    case Int(i) => IntString(i)
    case Float(_, r) => r
    case Str(s) => "'" + s + "'"
    case List(e) => "[" + ReprList(e) + "]"
    case Other(t, _) => t
  }

  function ReprList(vs: seq<Value>): string
    decreases vs
  {
    if vs == [] then ""
    else if |vs| == 1 then Repr(vs[0])
    else Repr(vs[0]) + ", " + ReprList(vs[1..])
  }

  /** `str(v)`. */
  function StrOf(v: Value): string {
    if v.Str? then v.s else Repr(v)
  }

  /** `int(x)` on a float truncates toward zero. */
  function Trunc(x: real): int {
    if x >= 0.0 then x.Floor else -((-x).Floor)
  }

  /** `int(v)`, or None where Python raises ValueError or TypeError. */
  function IntOf(v: Value): Option<int> {
    match v
    case Int(i) => Some(i)
    case Bool(b) => Some(if b then 1 else 0)
    case Float(x, _) => Some(Trunc(x))
    case Str(s) => ParseInt(s)
    case _ => None
  }

  /** `validate_stock`. */
  function ValidateStock(v: Value): (r: Checked<int>)
    ensures r.Valid? <==> IntOf(v).Some? && MinStock <= IntOf(v).value <= MaxStock
    ensures r.Valid? ==> r.value == IntOf(v).value
    ensures r.Invalid? && IntOf(v).None? ==> r.problem == NotAnInteger
  {
    match IntOf(v)
    case None => Invalid(NotAnInteger)
    case Some(stock) =>
      if stock < MinStock then Invalid(BelowMinimum("库存", MinStock))
      else if stock > MaxStock then Invalid(AboveMaximum("库存", MaxStock))
      else Valid(stock)
  }

  /** `validate_text(value, max_length, field_name, required, strip)`. */
  function ValidateText(v: Value, maxLength: int, field: string, required: bool, strip: bool): (r: Checked<string>)
    ensures var text := if strip then Strip(StrOf(v)) else StrOf(v);
            && (r.Valid? <==> (v.Null? && !required)
                              || (!v.Null? && (!required || text != "") && |text| <= maxLength))
            && (r.Valid? ==> r.value == if v.Null? then "" else text)
            && (r.Invalid? && required && (v.Null? || text == "") ==> r.problem == Required(field))
  {
    if v.Null? then
      if required then Invalid(Required(field)) else Valid("")
    else
      var text := if strip then Strip(StrOf(v)) else StrOf(v);
      if required && text == "" then Invalid(Required(field))
      else if |text| > maxLength then Invalid(TooLong(field, maxLength))
      else Valid(text)
  }

  function ValidateName(v: Value, required: bool): Checked<string> {
    ValidateText(v, MaxNameLength, "名称", required, true)
  }

  function ValidateDescription(v: Value, required: bool): Checked<string> {
    ValidateText(v, MaxDescriptionLength, "描述", required, true)
  }

  function ValidateQuestion(v: Value, required: bool): Checked<string> {
    ValidateText(v, MaxQuestionLength, "问题", required, true)
  }

  function ValidateAnswer(v: Value, required: bool): Checked<string> {
    ValidateText(v, MaxAnswerLength, "答案", required, true)
  }

  /** `validate_category`: the allowed list is only logged against, so a
      category outside it is accepted; only the required text rule with a
      limit of 50 decides. */
  function ValidateCategory(v: Value, allowed: seq<string>): (r: Checked<string>)
    ensures r.Valid? <==> !v.Null? && Strip(StrOf(v)) != "" && |Strip(StrOf(v))| <= MaxCategoryLength
    ensures r.Valid? ==> r.value == Strip(StrOf(v))
  {
    ValidateText(v, MaxCategoryLength, "分类", true, true)
  }

  /** `s.split(sep)` for a one-character separator: the pieces between
      separators, empty ones included. */
  function Split(s: string, sep: char): (r: seq<string>)
    ensures |r| >= 1
    ensures forall p :: p in r ==> sep !in p
  {
    if s == [] then [""]
    else
      var rest := Split(s[1..], sep);
      if s[0] == sep then [""] + rest
      else [[s[0]] + rest[0]] + rest[1..]
  }

  /** Joining the pieces with the separator gives the string back. */
  lemma {:induction false} SplitJoin(s: string, sep: char)
    ensures Join(Split(s, sep), [sep]) == s
  {
    if s != [] {
      var rest := Split(s[1..], sep);
      SplitJoin(s[1..], sep);
      if s[0] == sep {
        assert Split(s, sep) == [""] + rest;
        assert ([""] + rest)[1..] == rest;
      } else {
        var r := [[s[0]] + rest[0]] + rest[1..];
        assert Split(s, sep) == r;
        if |rest| == 1 {
          assert Join(r, [sep]) == [s[0]] + rest[0];
        } else {
          assert r[1..] == rest[1..];
          assert Join(r, [sep]) == [s[0]] + rest[0] + [sep] + Join(rest[1..], [sep]);
        }
      }
    }
  }

  /** `[k.strip() for k in value.split(",") if k.strip()]`. */
  function CommaPieces(s: string): seq<string> {
    var parts := Split(s, ',');
    StrippedNonEmpty(parts)
  }

  function StrippedNonEmpty(parts: seq<string>): (r: seq<string>)
    ensures |r| <= |parts|
  {
    if parts == [] then []
    else
      var k := Strip(parts[0]);
      (if k != "" then [k] else []) + StrippedNonEmpty(parts[1..])
  }

  /** Every kept piece is a non-empty stripped part. */
  lemma {:induction false} StrippedNonEmptySound(parts: seq<string>, k: string)
    requires k in StrippedNonEmpty(parts)
    ensures k != "" && exists p :: p in parts && k == Strip(p)
  {
    var h := Strip(parts[0]);
    assert StrippedNonEmpty(parts) == (if h != "" then [h] else []) + StrippedNonEmpty(parts[1..]);
    if k != h || h == "" {
      StrippedNonEmptySound(parts[1..], k);
      var p :| p in parts[1..] && k == Strip(p);
      assert p in parts;
    }
  }

  /** Every part that strips to something is kept, stripped. */
  lemma {:induction false} StrippedNonEmptyKeeps(parts: seq<string>, p: string)
    requires p in parts && Strip(p) != ""
    ensures Strip(p) in StrippedNonEmpty(parts)
  {
    var k := Strip(parts[0]);
    var rest := StrippedNonEmpty(parts[1..]);
    assert StrippedNonEmpty(parts) == (if k != "" then [k] else []) + rest;
    if p != parts[0] {
      assert p in parts[1..];
      StrippedNonEmptyKeeps(parts[1..], p);
    }
  }

  /** The kept pieces of two runs of parts are those of the first run
      followed by those of the second, and a single part is kept, stripped,
      exactly when it strips to something: so the pieces keep the parts'
      order and repetitions. */
  lemma {:induction false} StrippedNonEmptyAppend(a: seq<string>, b: seq<string>)
    ensures StrippedNonEmpty(a + b) == StrippedNonEmpty(a) + StrippedNonEmpty(b)
    decreases |a|
  {
    if a == [] {
      assert a + b == b;
      assert [] + StrippedNonEmpty(b) == StrippedNonEmpty(b);
    } else {
      var ab := a + b;
      assert ab[0] == a[0] && ab[1..] == a[1..] + b;
      var h, x, y := StrippedNonEmpty([a[0]]), StrippedNonEmpty(a[1..]), StrippedNonEmpty(b);
      calc {
        StrippedNonEmpty(ab);
        { StrippedNonEmptyCons(ab); }
        h + StrippedNonEmpty(a[1..] + b);
        { StrippedNonEmptyAppend(a[1..], b); }
        h + (x + y);
        (h + x) + y;
        { StrippedNonEmptyCons(a); }
        StrippedNonEmpty(a) + y;
      }
    }
  }

  lemma StrippedNonEmptyCons(parts: seq<string>)
    requires parts != []
    ensures StrippedNonEmpty(parts) == StrippedNonEmpty([parts[0]]) + StrippedNonEmpty(parts[1..])
  {
    assert [parts[0]][1..] == [];
  }

  lemma StrippedNonEmptyOne(p: string)
    ensures StrippedNonEmpty([p]) == if Strip(p) != "" then [Strip(p)] else []
  {
    assert [p][1..] == [];
  }

  /** `[str(k).strip() for k in value if k]`. */
  function ListPieces(vs: seq<Value>): seq<string> {
    if vs == [] then []
    else (if Truthy(vs[0]) then [Strip(StrOf(vs[0]))] else []) + ListPieces(vs[1..])
  }

  /** The keywords that fit the per-keyword limit, in order. */
  function ShortOnes(kws: seq<string>): (r: seq<string>)
    ensures |r| <= |kws|
    ensures forall k :: k in r <==> k in kws && |k| <= MaxKeywordLength
  {
    if kws == [] then []
    else (if |kws[0]| <= MaxKeywordLength then [kws[0]] else []) + ShortOnes(kws[1..])
  }

  /** The kept keywords of two runs are those of the first followed by
      those of the second, and a single keyword is kept exactly when it
      fits: so the kept ones keep their order and repetitions. */
  lemma {:induction false} ShortOnesAppend(a: seq<string>, b: seq<string>)
    ensures ShortOnes(a + b) == ShortOnes(a) + ShortOnes(b)
    decreases |a|
  {
    if a == [] {
      assert a + b == b;
      assert [] + ShortOnes(b) == ShortOnes(b);
    } else {
      var ab := a + b;
      assert ab[0] == a[0] && ab[1..] == a[1..] + b;
      var h, x, y := ShortOnes([a[0]]), ShortOnes(a[1..]), ShortOnes(b);
      calc {
        ShortOnes(ab);
        { ShortOnesCons(ab); }
        h + ShortOnes(a[1..] + b);
        { ShortOnesAppend(a[1..], b); }
        h + (x + y);
        (h + x) + y;
        { ShortOnesCons(a); }
        ShortOnes(a) + y;
      }
    }
  }

  lemma ShortOnesCons(kws: seq<string>)
    requires kws != []
    ensures ShortOnes(kws) == ShortOnes([kws[0]]) + ShortOnes(kws[1..])
  {
    assert [kws[0]][1..] == [];
  }

  lemma ShortOnesOne(k: string)
    ensures ShortOnes([k]) == if |k| <= MaxKeywordLength then [k] else []
  {
    assert [k][1..] == [];
  }

  /** The keyword list before the count check, or None for a value that is
      neither a string nor a list. */
  function RawKeywords(v: Value): Option<seq<string>> {
    match v
    case Str(s) => Some(CommaPieces(s))
    case List(e) => Some(ListPieces(e))
    case _ => None
  }

  /** `validate_keywords`. */
  function ValidateKeywords(v: Value): (r: Checked<seq<string>>)
    ensures v.Null? ==> r == Valid([])
    ensures !v.Null? ==>
              (r.Valid? <==> RawKeywords(v).Some? && |RawKeywords(v).value| <= MaxKeywordsCount)
    ensures r.Valid? ==> |r.value| <= MaxKeywordsCount
                         && forall k :: k in r.value ==> |k| <= MaxKeywordLength
    ensures r.Valid? && !v.Null? ==>
              forall k :: k in RawKeywords(v).value && |k| <= MaxKeywordLength ==> k in r.value
  {
    if v.Null? then Valid([])
    else
      match RawKeywords(v)
      case None => Invalid(BadKeywordFormat)
      case Some(kws) =>
        if |kws| > MaxKeywordsCount then Invalid(TooManyKeywords(MaxKeywordsCount))
        else Valid(ShortOnes(kws))
  }

  /** One position of an anchored regular expression: a literal, a range
      or `\d`, repeated `count` times. */
  datatype CharSet = Literal(c: char) | Range(lo: char, hi: char) | Digit
  datatype Element = Element(set_: CharSet, count: nat)

  predicate InSet(cs: CharSet, c: char) {
    match cs
    case Literal(l) => c == l
    case Range(lo, hi) => lo <= c <= hi
    case Digit => IsDigit(c)
  }

  /** `re.match` of `^...$` over a pattern of fixed repetitions. */
  predicate FullMatch(pattern: seq<Element>, s: string)
    decreases |pattern|, |s|
  {
    if pattern == [] then s == []
    else if pattern[0].count == 0 then FullMatch(pattern[1..], s)
    else s != [] && InSet(pattern[0].set_, s[0])
         && FullMatch([Element(pattern[0].set_, pattern[0].count - 1)] + pattern[1..], s[1..])
  }

  /** `^1[3-9]\d{9}$`. */
  const MobilePattern: seq<Element> := [Element(Literal('1'), 1), Element(Range('3', '9'), 1), Element(Digit, 9)]

  /** A mainland mobile number: eleven digits, a 1, then 3 to 9. */
  predicate IsMobile(p: string) {
    |p| == 11 && p[0] == '1' && '3' <= p[1] <= '9' && AllDigits(p[2..])
  }

  lemma {:induction false} DigitsMatch(n: nat, s: string)
    ensures FullMatch([Element(Digit, n)], s) <==> |s| == n && AllDigits(s)
  {
    if n == 0 {
      assert FullMatch([Element(Digit, 0)], s) == FullMatch([], s);
    } else if s != [] {
      assert [Element(Digit, n)][1..] == [];
      DigitsMatch(n - 1, s[1..]);
      assert AllDigits(s) <==> IsDigit(s[0]) && AllDigits(s[1..]);
    }
  }

  /** The regular expression accepts exactly the mobile numbers. */
  lemma MobilePatternExact(p: string)
    ensures FullMatch(MobilePattern, p) <==> IsMobile(p)
  {
    var rest := [Element(Range('3', '9'), 1), Element(Digit, 9)];
    assert MobilePattern[1..] == rest;
    assert [Element(Literal('1'), 0)] + rest == [Element(Literal('1'), 0)] + rest;
    if p != [] {
      assert FullMatch(MobilePattern, p) <==> p[0] == '1' && FullMatch([Element(Literal('1'), 0)] + rest, p[1..]);
      assert FullMatch([Element(Literal('1'), 0)] + rest, p[1..]) <==> FullMatch(rest, p[1..]);
      var q := p[1..];
      if q != [] {
        assert FullMatch(rest, q) <==> '3' <= q[0] <= '9' && FullMatch([Element(Range('3', '9'), 0), Element(Digit, 9)], q[1..]);
        assert FullMatch([Element(Range('3', '9'), 0), Element(Digit, 9)], q[1..]) <==> FullMatch([Element(Digit, 9)], q[1..]);
        DigitsMatch(9, q[1..]);
        assert q[1..] == p[2..];
      }
    }
  }

  /** `validate_phone`: a falsy value is accepted as "", anything else must
      strip to a mobile number. */
  function ValidatePhone(v: Value): (r: Checked<string>)
    ensures r.Valid? <==> !Truthy(v) || IsMobile(Strip(StrOf(v)))
    ensures r.Valid? ==> r.value == if Truthy(v) then Strip(StrOf(v)) else ""
  {
    if !Truthy(v) then Valid("")
    else
      var phone := Strip(StrOf(v));
      MobilePatternExact(phone);
      if !FullMatch(MobilePattern, phone) then Invalid(BadPhone) else Valid(phone)
  }

  /** `re.sub(r'<[^>]+>', '', text)`: each `<` that has a `>` after it with
      at least one character between starts a tag, which runs to that `>`. */
  function StripTags(s: string): (r: string)
    ensures forall c :: c in r ==> c in s
    ensures s != [] && s[0] != '<' ==> r != [] && r[0] == s[0]
    ensures forall i :: 0 <= i < |r| ==> !TagAt(r, i)
    decreases |s|
  {
    if s == [] then []
    else if s[0] == '<' && |s| >= 2 && s[1] != '>' && '>' in s[1..] then
      var j := 1 + IndexOf(s[1..], '>');
      StripTags(s[j + 1..])
    else
      var rest := StripTags(s[1..]);
      NoTagCons(s[0], rest);
      [s[0]] + rest
  }

  /** The pattern `<[^>]+>` matches at `i`: a `<`, then a character other
      than `>`, and a `>` somewhere after it. */
  predicate TagAt(s: string, i: int) {
    0 <= i && i + 1 < |s| && s[i] == '<' && s[i + 1] != '>' && '>' in s[i + 1..]
  }

  /** A character put in front of a tag-free text starts no tag when it is
      not `<`, or when no `>` follows, or when `>` follows at once. */
  lemma NoTagCons(c: char, rest: string)
    requires forall i :: 0 <= i < |rest| ==> !TagAt(rest, i)
    requires c == '<' ==> rest == [] || rest[0] == '>' || '>' !in rest
    ensures forall i :: 0 <= i < |[c] + rest| ==> !TagAt([c] + rest, i)
  {
    var r := [c] + rest;
    forall i | 0 <= i < |r|
      ensures !TagAt(r, i)
    {
      if i > 0 {
        assert r[i + 1..] == rest[i..];
        assert !TagAt(rest, i - 1);
      }
    }
  }

  /** A tag is dropped whole: `<`, a non-empty run without `>`, and `>`. */
  lemma TagRemoved(t: string, u: string)
    requires t != [] && '>' !in t
    ensures StripTags(['<'] + t + ['>'] + u) == StripTags(u)
  {
    var s := ['<'] + t + ['>'] + u;
    var tail := s[1..];
    assert tail == t + ['>'] + u;
    assert tail[|t|] == '>' && tail[..|t|] == t;
    IndexOfFirst(tail, '>', |t|);
    assert s[|t| + 2..] == u;
  }

  /** The first occurrence found is the first one there is. */
  lemma {:induction false} IndexOfFirst(s: string, c: char, k: nat)
    requires k < |s| && s[k] == c && c !in s[..k]
    ensures IndexOf(s, c) == k
    decreases k
  {
    if k > 0 {
      assert s[0] == s[..k][0];
      assert s[1..][..k - 1] == s[..k][1..];
      IndexOfFirst(s[1..], c, k - 1);
    }
  }

  /** Text without `<` is kept as it is in front of whatever follows. */
  lemma {:induction false} StripTagsPlainPrefix(a: string, b: string)
    requires '<' !in a
    ensures StripTags(a + b) == a + StripTags(b)
    decreases |a|
  {
    if a == [] {
      assert a + b == b;
    } else {
      var ab := a + b;
      assert ab[0] == a[0] && ab[1..] == a[1..] + b;
      StripTagsPlainPrefix(a[1..], b);
      assert StripTags(ab) == [a[0]] + StripTags(a[1..] + b);
    }
  }

  /** The position of the first `c` in `s`, or `|s|`. */
  function IndexOf(s: string, c: char): (j: nat)
    ensures j <= |s| && c !in s[..j]
    ensures j < |s| <==> c in s
    ensures j < |s| ==> s[j] == c
  {
    if s == [] then 0
    else if s[0] == c then 0
    else
      assert s[1..][..IndexOf(s[1..], c)] == s[1..1 + IndexOf(s[1..], c)];
      1 + IndexOf(s[1..], c)
  }

  /** `sanitize_html`: tags removed, then `&`, `<`, `>`, `"` and `'`
      replaced by entities, `&` first. */
  function SanitizeHtml(text: string): string {
    if text == "" then ""
    else
      var clean := StripTags(text);
      var clean := Replace(clean, "&", "&amp;");
      var clean := Replace(clean, "<", "&lt;");
      var clean := Replace(clean, ">", "&gt;");
      var clean := Replace(clean, "\"", "&quot;");
      Replace(clean, "'", "&#x27;")
  }

  /** Replacing a character removes it when the replacement lacks it, and
      brings in nothing but the replacement's characters. */
  lemma {:induction false} ReplaceChar(s: string, c: char, rep: string)
    ensures c !in rep ==> c !in Replace(s, [c], rep)
    ensures forall d :: d in Replace(s, [c], rep) ==> d in s || d in rep
    decreases |s|
  {
    if |s| >= 1 {
      ReplaceChar(s[1..], c, rep);
      assert s[..1] == [s[0]];
      assert forall d :: d in s[1..] ==> d in s;
    }
  }

  predicate Markup(c: char) {
    c == '<' || c == '>' || c == '"' || c == '\''
  }

  /** The sanitised text holds no `<`, `>`, `"` or `'`. */
  lemma SanitizeHtmlSafe(text: string)
    ensures forall c :: c in SanitizeHtml(text) ==> !Markup(c)
  {
    if text != "" {
      var a := StripTags(text);
      var b := Replace(a, "&", "&amp;");
      var c := Replace(b, "<", "&lt;");
      ReplaceAvoids(b, '<', "&lt;", '<');
      var d := Replace(c, ">", "&gt;");
      ReplaceAvoids(c, '>', "&gt;", '<');
      ReplaceAvoids(c, '>', "&gt;", '>');
      var e := Replace(d, "\"", "&quot;");
      ReplaceAvoids(d, '"', "&quot;", '<');
      ReplaceAvoids(d, '"', "&quot;", '>');
      ReplaceAvoids(d, '"', "&quot;", '"');
      var f := Replace(e, "'", "&#x27;");
      ReplaceAvoids(e, '\'', "&#x27;", '<');
      ReplaceAvoids(e, '\'', "&#x27;", '>');
      ReplaceAvoids(e, '\'', "&#x27;", '"');
      ReplaceAvoids(e, '\'', "&#x27;", '\'');
      assert SanitizeHtml(text) == f;
    }
  }

  /** A character that is not in the replacement is in the result only if it
      was in the text and is not the one replaced. */
  lemma ReplaceAvoids(s: string, c: char, rep: string, x: char)
    requires x == c || x !in s
    requires x !in rep
    ensures x !in Replace(s, [c], rep)
  {
    ReplaceChar(s, c, rep);
  }

  /** Text with none of the five special characters is left as it is. */
  lemma {:induction false} ReplaceAbsent(s: string, c: char, rep: string)
    requires c !in s
    ensures Replace(s, [c], rep) == s
    decreases |s|
  {
    if |s| >= 1 {
      assert s[..1] == [s[0]];
      ReplaceAbsent(s[1..], c, rep);
    }
  }

  lemma {:induction false} StripTagsNoAngle(s: string)
    requires '<' !in s
    ensures StripTags(s) == s
    decreases |s|
  {
    if s != [] {
      StripTagsNoAngle(s[1..]);
    }
  }

  lemma SanitizePlain(text: string)
    requires forall c :: c in text ==> !Markup(c) && c != '&'
    ensures SanitizeHtml(text) == text
  {
    if text != "" {
      StripTagsNoAngle(text);
      ReplaceAbsent(text, '&', "&amp;");
      ReplaceAbsent(text, '<', "&lt;");
      ReplaceAbsent(text, '>', "&gt;");
      ReplaceAbsent(text, '"', "&quot;");
      ReplaceAbsent(text, '\'', "&#x27;");
    }
  }

  /** A cleaned field value as the record validators store it. */
  datatype Cleaned = Text(text: string) | Words(words: seq<string>) | Count(n: int) | Price(p: real) | Passed(v: Value)

  /** `data.get(key, default)`. */
  function Get(data: map<string, Value>, key: string, default: Value): Value {
    if key in data then data[key] else default
  }

  function AsText(c: Checked<string>): (r: Checked<Cleaned>)
    ensures r.Valid? <==> c.Valid?
  {
    match c
    case Valid(x) => Valid(Text(x))
    case Invalid(p) => Invalid(p)
  }

  function AsWords(c: Checked<seq<string>>): (r: Checked<Cleaned>)
    ensures r.Valid? <==> c.Valid?
  {
    match c
    case Valid(x) => Valid(Words(x))
    case Invalid(p) => Invalid(p)
  }

  function AsCount(c: Checked<int>): (r: Checked<Cleaned>)
    ensures r.Valid? <==> c.Valid?
  {
    match c
    case Valid(x) => Valid(Count(x))
    case Invalid(p) => Invalid(p)
  }

  function AsPrice(c: Checked<real>): (r: Checked<Cleaned>)
    ensures r.Valid? <==> c.Valid?
  {
    match c
    case Valid(x) => Valid(Price(x))
    case Invalid(p) => Invalid(p)
  }

  /** One field step: a valid result is stored under its key, an invalid
      one appends its problem. */
  function Collect(acc: (map<string, Cleaned>, seq<Problem>), key: string, c: Checked<Cleaned>): (map<string, Cleaned>, seq<Problem>) {
    match c
    case Valid(x) => (acc.0[key := x], acc.1)
    case Invalid(p) => (acc.0, acc.1 + [p])
  }

  /** The fields checked one after another, from nothing. */
  function CollectAll(steps: seq<(string, Checked<Cleaned>)>): (r: (map<string, Cleaned>, seq<Problem>))
    ensures |r.1| <= |steps|
  {
    if steps == [] then (map[], [])
    else Collect(CollectAll(steps[..|steps| - 1]), steps[|steps| - 1].0, steps[|steps| - 1].1)
  }

  /** A key is cleaned exactly when one of its steps passed; the problems
      are those of the failing steps, so there are none exactly when every
      step passed. */
  lemma {:induction false} CollectKeys(steps: seq<(string, Checked<Cleaned>)>)
    ensures forall k :: k in CollectAll(steps).0 <==> exists i :: 0 <= i < |steps| && steps[i].0 == k && steps[i].1.Valid?
  {
    if steps != [] {
      var init := steps[..|steps| - 1];
      CollectKeys(init);
      assert CollectAll(steps) == Collect(CollectAll(init), steps[|steps| - 1].0, steps[|steps| - 1].1);
      forall k ensures k in CollectAll(steps).0 <==> exists i :: 0 <= i < |steps| && steps[i].0 == k && steps[i].1.Valid? {
        if k in CollectAll(steps).0 && !(steps[|steps| - 1].0 == k && steps[|steps| - 1].1.Valid?) {
          var i :| 0 <= i < |init| && init[i].0 == k && init[i].1.Valid?;
          assert steps[i] == init[i];
        }
        if exists i :: 0 <= i < |steps| && steps[i].0 == k && steps[i].1.Valid? {
          var i :| 0 <= i < |steps| && steps[i].0 == k && steps[i].1.Valid?;
          if i < |init| {
            assert init[i] == steps[i];
          }
        }
      }
    }
  }

  /** No problem is reported exactly when every step passed. */
  lemma {:induction false} CollectErrors(steps: seq<(string, Checked<Cleaned>)>)
    ensures CollectAll(steps).1 == [] <==> forall i :: 0 <= i < |steps| ==> steps[i].1.Valid?
  {
    if steps != [] {
      var init := steps[..|steps| - 1];
      CollectErrors(init);
      if CollectAll(steps).1 == [] {
        assert steps[|steps| - 1].1.Valid?;
        forall i | 0 <= i < |steps| ensures steps[i].1.Valid? {
          if i < |init| {
            assert init[i] == steps[i];
          }
        }
      }
    }
  }

  predicate DistinctKeys(steps: seq<(string, Checked<Cleaned>)>) {
    forall i, j :: 0 <= i < j < |steps| ==> steps[i].0 != steps[j].0
  }

  /** With distinct keys, each field is cleaned exactly when its own check
      passed, and only the checked fields are cleaned. */
  lemma {:induction false} CollectDistinct(steps: seq<(string, Checked<Cleaned>)>)
    requires DistinctKeys(steps)
    ensures forall i :: 0 <= i < |steps| ==> (steps[i].0 in CollectAll(steps).0 <==> steps[i].1.Valid?)
  {
    if steps != [] {
      var n := |steps| - 1;
      var init := steps[..n];
      assert forall i :: 0 <= i < n ==> init[i] == steps[i];
      CollectDistinct(init);
      CollectKeys(init);
      assert CollectAll(steps) == Collect(CollectAll(init), steps[n].0, steps[n].1);
      forall i | 0 <= i < |steps| ensures steps[i].0 in CollectAll(steps).0 <==> steps[i].1.Valid? {
        if i < n {
          assert init[i] == steps[i] && steps[i].0 != steps[n].0;
        } else {
          assert forall j :: 0 <= j < |init| ==> init[j].0 != steps[n].0;
        }
      }
    }
  }

  /** `KnowledgeValidator.validate` over the four field results: question,
      answer, keywords, category. */
  function CollectKnowledge(q: Checked<string>, a: Checked<string>, k: Checked<seq<string>>, c: Checked<string>): (bool, map<string, Cleaned>, seq<Problem>) {
    var (cleaned, errors) := CollectAll([("question", AsText(q)), ("answer", AsText(a)), ("keywords", AsWords(k)), ("category", AsText(c))]);
    (errors == [], cleaned, errors)
  }

  /** Valid exactly when every field passed; each field is cleaned exactly
      when its own check passed, and no other key appears. */
  lemma CollectKnowledgeFacts(q: Checked<string>, a: Checked<string>, k: Checked<seq<string>>, c: Checked<string>)
    ensures var (ok, cleaned, errors) := CollectKnowledge(q, a, k, c);
            && (ok <==> errors == [])
            && (ok <==> q.Valid? && a.Valid? && k.Valid? && c.Valid?)
            && ("question" in cleaned <==> q.Valid?)
            && ("answer" in cleaned <==> a.Valid?)
            && ("keywords" in cleaned <==> k.Valid?)
            && ("category" in cleaned <==> c.Valid?)
            && (forall key :: key in cleaned ==> key in {"question", "answer", "keywords", "category"})
  {
    var steps := [("question", AsText(q)), ("answer", AsText(a)), ("keywords", AsWords(k)), ("category", AsText(c))];
    CollectDistinct(steps);
    CollectKeys(steps);
    CollectErrors(steps);
    assert steps[0] == ("question", AsText(q)) && steps[1] == ("answer", AsText(a));
    assert steps[2] == ("keywords", AsWords(k)) && steps[3] == ("category", AsText(c));
  }

  /** `KnowledgeValidator.validate`: (valid, cleaned, errors). */
  function ValidateKnowledge(data: map<string, Value>): (bool, map<string, Cleaned>, seq<Problem>) {
    CollectKnowledge(ValidateQuestion(Get(data, "question", Null), true),
                     ValidateAnswer(Get(data, "answer", Null), true),
                     ValidateKeywords(Get(data, "keywords", Null)),
                     ValidateCategory(Get(data, "category", Str("通用")), []))
  }

  /** The price check, whose float rounding is not modelled, is given as
      its result. */
  function CollectProduct(n: Checked<string>, price: Checked<real>, stock: Checked<int>, c: Checked<string>,
                          d: Checked<string>, k: Checked<seq<string>>, specifications: Value): (bool, map<string, Cleaned>, seq<Problem>) {
    var (cleaned, errors) := CollectAll([("name", AsText(n)), ("price", AsPrice(price)), ("stock", AsCount(stock)),
                                         ("category", AsText(c)), ("description", AsText(d)), ("keywords", AsWords(k))]);
    (errors == [], cleaned["specifications" := Passed(specifications)], errors)
  }

  /** The specifications pass through whatever the other fields do, and
      the product is valid exactly when every field check passed. */
  lemma CollectProductFacts(n: Checked<string>, price: Checked<real>, stock: Checked<int>, c: Checked<string>,
                            d: Checked<string>, k: Checked<seq<string>>, specifications: Value)
    ensures var (ok, cleaned, errors) := CollectProduct(n, price, stock, c, d, k, specifications);
            && "specifications" in cleaned && cleaned["specifications"] == Passed(specifications)
            && (ok <==> n.Valid? && price.Valid? && stock.Valid? && c.Valid? && d.Valid? && k.Valid?)
            && ("stock" in cleaned <==> stock.Valid?)
            && ("price" in cleaned <==> price.Valid?)
  {
    var steps := [("name", AsText(n)), ("price", AsPrice(price)), ("stock", AsCount(stock)),
                  ("category", AsText(c)), ("description", AsText(d)), ("keywords", AsWords(k))];
    var all := CollectAll(steps);
    assert CollectProduct(n, price, stock, c, d, k, specifications)
        == (all.1 == [], all.0["specifications" := Passed(specifications)], all.1);
    assert DistinctKeys(steps);
    CollectDistinct(steps);
    CollectErrors(steps);
    assert "stock" in all.0 <==> stock.Valid? by {
      assert steps[2] == ("stock", AsCount(stock));
    }
    assert "price" in all.0 <==> price.Valid? by {
      assert steps[1] == ("price", AsPrice(price));
    }
    assert all.1 == [] <==> n.Valid? && price.Valid? && stock.Valid? && c.Valid? && d.Valid? && k.Valid? by {
      assert steps[0].1 == AsText(n) && steps[1].1 == AsPrice(price) && steps[2].1 == AsCount(stock);
      assert steps[3].1 == AsText(c) && steps[4].1 == AsText(d) && steps[5].1 == AsWords(k);
    }
  }

  /** `ProductValidator.validate`: (valid, cleaned, errors). */
  function ValidateProduct(data: map<string, Value>, price: Checked<real>): (bool, map<string, Cleaned>, seq<Problem>) {
    CollectProduct(ValidateName(Get(data, "name", Null), true), price,
                   ValidateStock(Get(data, "stock", Int(0))),
                   ValidateCategory(Get(data, "category", Null), []),
                   ValidateDescription(Get(data, "description", Null), true),
                   ValidateKeywords(Get(data, "keywords", Null)),
                   Get(data, "specifications", Other("{}", false)))
  }
}
