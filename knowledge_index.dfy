/** The inverted index of the knowledge store (core/shared_data.py): each
    index term maps to the ids of the items that carry it, in the order the
    items were indexed. */
module KnowledgeIndex {
  import opened PyText
  import opened QueryText
  import opened KnowledgeText

  /** Only the first ten tokens of a question are indexed. */
  const QuestionTermLimit: nat := 10

  type Index = map<string, seq<string>>

  /** What an item is indexed under; the store uses `IndexTerms`. */
  type TermsOf = KnowledgeItem -> set<string>

  function Term(s: string): string {
    Lower(Strip(s))
  }

  /** The stripped, lowered, non-empty keywords. */
  function KeywordTerms(keywords: seq<string>): (ts: set<string>)
    ensures "" !in ts
  {
    set k | k in keywords && Term(k) != "" :: Term(k)
  }

  function CategoryTerms(category: string): (ts: set<string>)
    ensures "" !in ts
  {
    if Term(category) != "" then {Term(category)} else {}
  }

  /** The lowered first ten tokens of the question. */
  function QuestionTerms(question: string): set<string> {
    set t | t in Take(ExtractTokens(question), QuestionTermLimit) :: Lower(t)
  }

  /** The terms an item is indexed under. */
  function IndexTerms(item: KnowledgeItem): (ts: set<string>)
    ensures "" !in ts
  {
    var k, c, q := KeywordTerms(item.keywords), CategoryTerms(item.category), QuestionTerms(item.question);
    QuestionTermsNonEmpty(item.question);
    k + c + q
  }

  lemma QuestionTermsNonEmpty(question: string)
    ensures "" !in QuestionTerms(question)
  {
    var toks := ExtractTokens(question);
    var first := Take(toks, QuestionTermLimit);
    forall t | t in first ensures Lower(t) != "" {
      var i :| 0 <= i < |first| && first[i] == t;
      assert t == toks[i];
      assert t in toks;
      assert |Lower(t)| == |t| > 0;
    }
  }

  function Postings(idx: Index, t: string): seq<string> {
    if t in idx then idx[t] else []
  }

  /** Appends `id` to a posting list that does not hold it yet. */
  function AppendOnce(p: seq<string>, id: string): (r: seq<string>)
    ensures id in r && (forall x :: x in r <==> x in p || x == id)
    ensures NoDup(p) ==> NoDup(r)
  {
    if id in p then p else p + [id]
  }

  /** Python's `list.remove(x)`: drops the first occurrence. */
  function RemoveFirst(p: seq<string>, x: string): (r: seq<string>)
    requires x in p
    ensures |r| == |p| - 1
    ensures NoDup(p) ==> NoDup(r) && (forall y :: y in r <==> y in p && y != x)
  {
    if p[0] == x then p[1..]
    else
      var r := [p[0]] + RemoveFirst(p[1..], x);
      assert NoDup(p) ==> p[0] !in p[1..];
      r
  }

  /** `list.remove(x)` takes away exactly one occurrence of `x`. */
  lemma {:induction false} RemoveFirstCount(p: seq<string>, x: string)
    requires x in p
    ensures multiset(RemoveFirst(p, x)) == multiset(p) - multiset{x}
  {
    assert p == [p[0]] + p[1..];
    if p[0] != x {
      RemoveFirstCount(p[1..], x);
    }
  }

  /** `list.remove(x)` cuts out the first occurrence of `x`, at `i`, and
      keeps the rest in order. */
  lemma {:induction false} RemoveFirstCuts(p: seq<string>, x: string, i: nat)
    requires i < |p| && p[i] == x && x !in p[..i]
    ensures RemoveFirst(p, x) == p[..i] + p[i + 1..]
  {
    if i == 0 {
      assert p[..0] == [];
    } else {
      var t := p[1..];
      assert p[0] in p[..i];
      assert t[..i - 1] == p[1..i];
      RemoveFirstCuts(t, x, i - 1);
      assert p[..i] == [p[0]] + t[..i - 1];
      assert p[i + 1..] == t[i..];
    }
  }

  /** The adding branch of `_update_inverted_index`, and one item's pass of
      `_build_inverted_index`: `id` joins the posting of every term, once. */
  function AddPostings(idx: Index, id: string, terms: set<string>): Index {
    map t | t in idx.Keys + terms :: if t in terms then AppendOnce(Postings(idx, t), id) else idx[t]
  }

  /** The removing branch of `_update_inverted_index`: `id` leaves the
      posting of every term, and a posting left empty is deleted. */
  function RemovePostings(idx: Index, id: string, terms: set<string>): Index {
    map t | t in idx.Keys && !(t in terms && id in idx[t] && |idx[t]| == 1)
      :: if t in terms && id in idx[t] then RemoveFirst(idx[t], id) else idx[t]
  }

  /** The index after `update_item` on a built index: the old terms'
      postings lose `id`, then the new terms' postings gain it. */
  function Reposted(idx: Index, id: string, oldTerms: set<string>, newTerms: set<string>): Index {
    AddPostings(RemovePostings(idx, id, oldTerms), id, newTerms)
  }

  /** `_build_inverted_index`: the items indexed one after another. */
  function BuildFrom(idx: Index, items: seq<KnowledgeItem>, termsOf: TermsOf): Index
    decreases |items|
  {
    if items == [] then idx else BuildFrom(AddPostings(idx, items[0].id, termsOf(items[0])), items[1..], termsOf)
  }

  function Build(items: seq<KnowledgeItem>): Index {
    BuildFrom(map[], items, IndexTerms)
  }

  predicate UniqueIds(items: seq<KnowledgeItem>) {
    forall i, j :: 0 <= i < j < |items| ==> items[i].id != items[j].id
  }

  /** Some item with id `x` carries the term `t`. */
  predicate HasTerm(items: seq<KnowledgeItem>, x: string, t: string, termsOf: TermsOf) {
    exists it :: it in items && it.id == x && t in termsOf(it)
  }

  /** The index answers exactly for the items: no empty or repeating
      posting, every posting entry is an item carrying the term, and every
      term of every item leads to that item. */
  ghost predicate Agrees(idx: Index, items: seq<KnowledgeItem>, termsOf: TermsOf) {
    && (forall t :: t in idx ==> idx[t] != [] && NoDup(idx[t]))
    && (forall t, x :: t in idx && x in idx[t] ==> HasTerm(items, x, t, termsOf))
    && (forall it, t :: it in items && t in termsOf(it) ==> t in idx && it.id in idx[t])
  }

  lemma AddPostingsFacts(idx: Index, id: string, terms: set<string>)
    ensures var r := AddPostings(idx, id, terms);
            && r.Keys == idx.Keys + terms
            && (forall t :: t in terms ==> id in r[t] && forall x :: x in r[t] <==> x in Postings(idx, t) || x == id)
            && (forall t :: t in r && t !in terms ==> r[t] == idx[t])
            && (forall t :: t in idx && NoDup(idx[t]) ==> NoDup(r[t]))
  {
  }

  /** Adding `id` under its terms keeps every posting free of repeats and
      puts `id` exactly once into each of them. */
  lemma AddPostingsOnce(idx: Index, id: string, terms: set<string>, t: string)
    requires t in terms && (t in idx ==> NoDup(idx[t]))
    ensures var r := AddPostings(idx, id, terms);
            t in r && NoDup(r[t]) && id in r[t]
            && forall i, j :: 0 <= i < |r[t]| && 0 <= j < |r[t]| && r[t][i] == id && r[t][j] == id ==> i == j
  {
    var p := Postings(idx, t);
    assert p == [] || NoDup(p);
  }

  lemma RemovePostingsFacts(idx: Index, id: string, terms: set<string>)
    requires forall t :: t in idx ==> idx[t] != [] && NoDup(idx[t])
    ensures var r := RemovePostings(idx, id, terms);
            && r.Keys <= idx.Keys
            && (forall t :: t in r ==> r[t] != [] && NoDup(r[t]))
            && (forall t :: t in terms && t in r ==> id !in r[t] && forall x :: x in r[t] <==> x in idx[t] && x != id)
            && (forall t :: t in idx && t !in terms ==> t in r && r[t] == idx[t])
            && (forall t :: t in idx && t in terms && !(id in idx[t] && |idx[t]| == 1) ==> t in r)
  {
    var r := RemovePostings(idx, id, terms);
    forall t | t in r ensures r[t] != [] {
      if t in terms && id in idx[t] {
        assert |r[t]| == |idx[t]| - 1;
      }
    }
  }

  /** Indexing one more item keeps the index in agreement. */
  lemma {:induction false} AddAgrees(idx: Index, items: seq<KnowledgeItem>, it: KnowledgeItem, termsOf: TermsOf)
    requires Agrees(idx, items, termsOf)
    ensures Agrees(AddPostings(idx, it.id, termsOf(it)), items + [it], termsOf)
  {
    var terms := termsOf(it);
    var r := AddPostings(idx, it.id, terms);
    var all := items + [it];
    AddPostingsFacts(idx, it.id, terms);
    forall t | t in r ensures r[t] != [] && NoDup(r[t]) {
      if t in terms {
        AddPostingsOnce(idx, it.id, terms, t);
      }
    }
    forall t, x | t in r && x in r[t] ensures HasTerm(all, x, t, termsOf) {
      if t in terms && x == it.id {
        assert it in all;
      } else {
        assert x in idx[t];
        var w :| w in items && w.id == x && t in termsOf(w);
        assert w in all;
      }
    }
    forall w, t | w in all && t in termsOf(w) ensures t in r && w.id in r[t] {
      if w != it {
        assert w in items;
      }
    }
  }

  lemma {:induction false} BuildFromAgrees(idx: Index, done: seq<KnowledgeItem>, rest: seq<KnowledgeItem>, termsOf: TermsOf)
    requires Agrees(idx, done, termsOf)
    ensures Agrees(BuildFrom(idx, rest, termsOf), done + rest, termsOf)
    decreases |rest|
  {
    if rest == [] {
      assert done + rest == done;
    } else {
      AddAgrees(idx, done, rest[0], termsOf);
      BuildFromAgrees(AddPostings(idx, rest[0].id, termsOf(rest[0])), done + [rest[0]], rest[1..], termsOf);
      assert done + [rest[0]] + rest[1..] == done + rest;
    }
  }

  /** `_build_inverted_index` produces an index in agreement with the items. */
  lemma BuildAgrees(items: seq<KnowledgeItem>)
    ensures Agrees(Build(items), items, IndexTerms)
  {
    BuildFromAgrees(map[], [], items, IndexTerms);
    assert [] + items == items;
  }

  /** The items without position `i`, as `del self.items[i]` leaves them. */
  function Without(items: seq<KnowledgeItem>, i: nat): (r: seq<KnowledgeItem>)
    requires i < |items|
    ensures |r| == |items| - 1
  {
    items[..i] + items[i + 1..]
  }

  lemma WithoutMembers(items: seq<KnowledgeItem>, i: nat)
    requires i < |items| && UniqueIds(items)
    ensures forall w :: w in Without(items, i) <==> w in items && w.id != items[i].id
    ensures UniqueIds(Without(items, i))
  {
    var r := Without(items, i);
    forall w | w in items && w.id != items[i].id ensures w in r {
      var j :| 0 <= j < |items| && items[j] == w;
      if j < i {
        assert r[j] == w;
      } else {
        assert j != i && r[j - 1] == w;
      }
    }
    forall w | w in r ensures w in items && w.id != items[i].id {
      var j :| 0 <= j < |r| && r[j] == w;
      if j < i {
        assert items[j] == w;
      } else {
        assert items[j + 1] == w;
      }
    }
  }

  /** Removing an item's postings before deleting it keeps the index in
      agreement with the remaining items, when ids are unique. */
  lemma RemoveAgrees(idx: Index, items: seq<KnowledgeItem>, i: nat, termsOf: TermsOf)
    requires i < |items| && UniqueIds(items) && Agrees(idx, items, termsOf)
    ensures Agrees(RemovePostings(idx, items[i].id, termsOf(items[i])), Without(items, i), termsOf)
  {
    WithoutMembers(items, i);
    RemovePostingsFacts(idx, items[i].id, termsOf(items[i]));
    RemoveSound(idx, items, i, termsOf);
    RemoveComplete(idx, items, i, termsOf);
  }

  lemma RemoveSound(idx: Index, items: seq<KnowledgeItem>, i: nat, termsOf: TermsOf)
    requires i < |items| && UniqueIds(items) && Agrees(idx, items, termsOf)
    ensures var r := RemovePostings(idx, items[i].id, termsOf(items[i]));
            forall t, x :: t in r && x in r[t] ==> HasTerm(Without(items, i), x, t, termsOf)
  {
    var it := items[i];
    var terms := termsOf(it);
    var r := RemovePostings(idx, it.id, terms);
    var rest := Without(items, i);
    WithoutMembers(items, i);
    RemovePostingsFacts(idx, it.id, terms);
    forall t, x | t in r && x in r[t] ensures HasTerm(rest, x, t, termsOf) {
      assert x in idx[t];
      var w :| w in items && w.id == x && t in termsOf(w);
      assert w.id != it.id;
      assert w in rest;
    }
  }

  lemma RemoveComplete(idx: Index, items: seq<KnowledgeItem>, i: nat, termsOf: TermsOf)
    requires i < |items| && UniqueIds(items) && Agrees(idx, items, termsOf)
    ensures var r := RemovePostings(idx, items[i].id, termsOf(items[i]));
            forall w, t :: w in Without(items, i) && t in termsOf(w) ==> t in r && w.id in r[t]
  {
    var it := items[i];
    var terms := termsOf(it);
    var r := RemovePostings(idx, it.id, terms);
    WithoutMembers(items, i);
    forall w, t | w in Without(items, i) && t in termsOf(w) ensures t in r && w.id in r[t] {
      RemoveKeepsItem(idx, items, it, termsOf, w, t);
    }
  }

  /** A remaining item's posting entry survives the removal of another item. */
  lemma RemoveKeepsItem(idx: Index, items: seq<KnowledgeItem>, it: KnowledgeItem, termsOf: TermsOf, w: KnowledgeItem, t: string)
    requires Agrees(idx, items, termsOf) && w in items && w.id != it.id && t in termsOf(w)
    ensures var r := RemovePostings(idx, it.id, termsOf(it));
            t in r && w.id in r[t]
  {
    assert t in idx && w.id in idx[t] && NoDup(idx[t]);
    RemoveKeeps(idx, it.id, termsOf(it), t, w.id);
  }

  /** Removing `id` keeps every other entry of a posting. */
  lemma RemoveKeeps(idx: Index, id: string, terms: set<string>, t: string, x: string)
    requires t in idx && NoDup(idx[t]) && x in idx[t] && x != id
    ensures var r := RemovePostings(idx, id, terms);
            t in r && x in r[t]
  {
    if t in terms && id in idx[t] {
      SingletonMembers(idx[t], x, id);
    }
  }

  lemma SingletonMembers(p: seq<string>, a: string, b: string)
    ensures |p| == 1 && a in p && b in p ==> a == b
  {
  }

  /** `update_item` on a built index: the old postings are removed and the
      new ones added, which agrees with the items after the replacement. */
  lemma UpdateAgrees(idx: Index, items: seq<KnowledgeItem>, i: nat, updated: KnowledgeItem, termsOf: TermsOf)
    requires i < |items| && UniqueIds(items) && Agrees(idx, items, termsOf) && updated.id == items[i].id
    ensures Agrees(Reposted(idx, items[i].id, termsOf(items[i]), termsOf(updated)),
                   items[i := updated], termsOf)
    ensures UniqueIds(items[i := updated])
  {
    RemoveAgrees(idx, items, i, termsOf);
    var mid := RemovePostings(idx, items[i].id, termsOf(items[i]));
    AddAgrees(mid, Without(items, i), updated, termsOf);
    WithoutMembers(items, i);
    var after := items[i := updated];
    forall w | w in after ensures w in Without(items, i) + [updated] {
      var j :| 0 <= j < |after| && after[j] == w;
      if j != i {
        assert w == items[j] && w.id != items[i].id;
      }
    }
    forall w | w in Without(items, i) + [updated] ensures w in after {
      if w == updated {
        assert after[i] == w;
      } else {
        assert w in Without(items, i);
        assert w in items && w.id != items[i].id;
        var j :| 0 <= j < |items| && items[j] == w;
        assert j != i && after[j] == w;
      }
    }
    AgreesSameItems(AddPostings(mid, updated.id, termsOf(updated)), Without(items, i) + [updated], after, termsOf);
  }

  lemma AgreesSameItems(idx: Index, a: seq<KnowledgeItem>, b: seq<KnowledgeItem>, termsOf: TermsOf)
    requires Agrees(idx, a, termsOf) && forall w :: w in a <==> w in b
    ensures Agrees(idx, b, termsOf)
  {
    forall t, x | t in idx && x in idx[t] ensures HasTerm(b, x, t, termsOf) {
      var w :| w in a && w.id == x && t in termsOf(w);
      assert w in b;
    }
  }

  /** Appending an item with a fresh id keeps ids unique. */
  lemma AppendUnique(items: seq<KnowledgeItem>, it: KnowledgeItem)
    requires UniqueIds(items) && forall w :: w in items ==> w.id != it.id
    ensures UniqueIds(items + [it])
  {
    var r := items + [it];
    forall i, j | 0 <= i < j < |r| ensures r[i].id != r[j].id {
      if j == |items| {
        assert r[i] in items;
      }
    }
  }
}
