/** The JSON-shaped dictionaries conversations are saved as and the trace
    panel reads back. */
module JsonValue {
  import opened Wrappers

  /** A JSON value; an object keeps its keys in insertion order. */
  datatype Json = JNull | JBool(b: bool) | JNum(x: real) | JStr(s: string) | JList(elems: seq<Json>)
                | JObject(fields: seq<(string, Json)>)

  /** `d[key]` on an object's fields: None where Python raises `KeyError`. */
  function Lookup(fields: seq<(string, Json)>, key: string): Option<Json> {
    if fields == [] then None
    else if fields[0].0 == key then Some(fields[0].1)
    else Lookup(fields[1..], key)
  }

  /** `d.get(key, default)`. */
  function GetOr(fields: seq<(string, Json)>, key: string, default: Json): Json {
    Lookup(fields, key).GetOr(default)
  }

  /** Python truthiness of a JSON value. */
  predicate Truthy(j: Json) {
    match j
    case JNull => false
    case JBool(b) => b
    case JNum(x) => x != 0.0
    case JStr(s) => s != ""
    case JList(es) => es != []
    case JObject(fs) => fs != []
  }

  /** The value under the first entry with the key. */
  lemma {:induction false} LookupAt(fields: seq<(string, Json)>, key: string, i: nat)
    requires i < |fields| && fields[i].0 == key
    requires forall j :: 0 <= j < i ==> fields[j].0 != key
    ensures Lookup(fields, key) == Some(fields[i].1)
  {
    if i > 0 {
      LookupAt(fields[1..], key, i - 1);
    }
  }

  lemma {:induction false} LookupMissing(fields: seq<(string, Json)>, key: string)
    requires forall j :: 0 <= j < |fields| ==> fields[j].0 != key
    ensures Lookup(fields, key) == None
  {
    if fields != [] {
      LookupMissing(fields[1..], key);
    }
  }
  /** The number a JSON boolean or number stands for in Python, where
      `True == 1` and `1 == 1.0`. */
  function Numeric(j: Json): Option<real> {
    match j
    case JBool(b) => Some(if b then 1.0 else 0.0)
    case JNum(x) => Some(x)
    case _ => None
  }

  /** No earlier entry of the object has the key of entry `i`. */
  predicate FirstKey(fields: seq<(string, Json)>, i: nat)
    requires i < |fields|
  {
    forall m :: 0 <= m < i ==> fields[m].0 != fields[i].0
  }

  /** The keys of an object. */
  function Keys(fields: seq<(string, Json)>): set<string> {
    set f | f in fields :: f.0
  }

  /** Python's `==` on the values `json.load` returns: numbers and booleans
      compare by value, lists element by element, and dictionaries by their
      keys and the values under them. */
  predicate PyEq(a: Json, b: Json)
    decreases a
  {
    if Numeric(a).Some? || Numeric(b).Some? then Numeric(a) == Numeric(b)
    else match a
      case JNull => b.JNull?
      case JStr(s) => b.JStr? && b.s == s
      case JList(es) =>
        b.JList? && |es| == |b.elems| && forall i :: 0 <= i < |es| ==> PyEq(es[i], b.elems[i])
      case JObject(fs) =>
        && b.JObject? && Keys(fs) == Keys(b.fields)
        && forall i, j ::
             (0 <= i < |fs| && 0 <= j < |b.fields| && fs[i].0 == b.fields[j].0 && FirstKey(fs, i)
              && FirstKey(b.fields, j)) ==> PyEq(fs[i].1, b.fields[j].1)
      case _ => false
  }

  /** Every value equals itself. */
  lemma {:induction false} PyEqReflexive(a: Json)
    ensures PyEq(a, a)
    decreases a
  {
    match a
    case JList(es) =>
      forall i | 0 <= i < |es| ensures PyEq(es[i], es[i]) {
        PyEqReflexive(es[i]);
      }
    case JObject(fs) =>
      forall i, j | 0 <= i < |fs| && 0 <= j < |fs| && fs[i].0 == fs[j].0 && FirstKey(fs, i) && FirstKey(fs, j)
        ensures PyEq(fs[i].1, fs[j].1)
      {
        assert i == j;
        PyEqReflexive(fs[i].1);
      }
    case _ =>
  }

  /** Python's `==` on these values is symmetric. */
  lemma {:induction false} PyEqSymmetric(a: Json, b: Json)
    requires PyEq(a, b)
    ensures PyEq(b, a)
    decreases a
  {
    if Numeric(a).None? && Numeric(b).None? {
      match a
      case JList(es) =>
        forall i | 0 <= i < |es| ensures PyEq(b.elems[i], es[i]) {
          PyEqSymmetric(es[i], b.elems[i]);
        }
      case JObject(fs) =>
        var gs := b.fields;
        forall j, i | 0 <= j < |gs| && 0 <= i < |fs| && gs[j].0 == fs[i].0 && FirstKey(gs, j) && FirstKey(fs, i)
          ensures PyEq(gs[j].1, fs[i].1)
        {
          PyEqSymmetric(fs[i].1, gs[j].1);
        }
      case _ =>
    }
  }
}
