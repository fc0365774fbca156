/** The item list and inverted index of the knowledge store
    (core/shared_data.py) as values: loading, new ids, and the adding,
    deleting and updating of items with the index kept in step. */
module KnowledgeBase {
  import opened Wrappers
  import opened PyText
  import opened QueryText
  import opened KnowledgeText
  import opened KnowledgeIndex

  /** What `_load_from_file` finds: no file, a file it cannot read, a file
      whose modification time matches the class-level cache, or a file it
      reads. */
  datatype LoadSource = NoFile | Unreadable | CacheHit(cached: seq<KnowledgeItem>) | FileRead(read: seq<KnowledgeItem>)

  /** The items of a store, its inverted index and whether the index has
      been built. */
  datatype Base = Base(items: seq<KnowledgeItem>, index: Index, built: bool)

  /** Ids are unique and a built index agrees with the items. */
  ghost predicate Coherent(b: Base) {
    UniqueIds(b.items) && (b.built ==> Agrees(b.index, b.items, IndexTerms))
  }

  function LoadedItems(src: LoadSource, defaults: seq<KnowledgeItem>): seq<KnowledgeItem> {
    match src
    case CacheHit(items) => items
    case FileRead(items) => items
    case _ => defaults
  }

  /** `_load_from_file`: a cache hit takes the cached items and returns
      before the index is built; a read file, and the default knowledge when
      the file is missing or unreadable, are indexed. */
  function Loaded(src: LoadSource, defaults: seq<KnowledgeItem>): Base {
    var items := LoadedItems(src, defaults);
    if src.CacheHit? then Base(items, map[], false) else Base(items, Build(items), true)
  }

  /** The loaded store is coherent when the loaded ids are unique; only a
      cache hit leaves the index unbuilt. */
  lemma LoadedCoherent(src: LoadSource, defaults: seq<KnowledgeItem>)
    ensures UniqueIds(LoadedItems(src, defaults)) ==> Coherent(Loaded(src, defaults))
    ensures Loaded(src, defaults).built <==> !src.CacheHit?
  {
    BuildAgrees(LoadedItems(src, defaults));
  }

  // ---------------------------------------------------------------------
  // Lookup

  /** The position of the first item with `id`, or -1. */
  function FirstIndex(items: seq<KnowledgeItem>, id: string): (i: int)
    ensures -1 <= i < |items|
    ensures i >= 0 ==> items[i].id == id && forall j :: 0 <= j < i ==> items[j].id != id
    ensures i == -1 <==> forall j :: 0 <= j < |items| ==> items[j].id != id
  {
    if items == [] then -1
    else if items[0].id == id then 0
    else
      var k := FirstIndex(items[1..], id);
      assert forall j :: 1 <= j < |items| ==> items[j] == items[1..][j - 1];
      if k < 0 then -1 else k + 1
  }

  /** `get_item_by_id`. */
  function FindItem(items: seq<KnowledgeItem>, id: string): Option<KnowledgeItem> {
    var i := FirstIndex(items, id);
    if i < 0 then None else Some(items[i])
  }

  /** The lookup finds an item exactly when one has the id, and then the
      one item with it when ids are unique. */
  lemma FindItemFacts(items: seq<KnowledgeItem>, id: string)
    ensures FindItem(items, id).Some? <==> exists it :: it in items && it.id == id
    ensures FindItem(items, id).Some? ==> FindItem(items, id).value in items && FindItem(items, id).value.id == id
    ensures UniqueIds(items) ==> forall it :: it in items && it.id == id ==> FindItem(items, id) == Some(it)
  {
    var i := FirstIndex(items, id);
    if i < 0 {
      forall it | it in items ensures it.id != id {
        var j :| 0 <= j < |items| && items[j] == it;
      }
    } else {
      assert items[i] in items;
    }
  }

  // ---------------------------------------------------------------------
  // _update_inverted_index

  /** `_update_inverted_index(item, remove)`: an unbuilt index is built from
      the current items instead; otherwise the item's id leaves or joins the
      postings of its terms. */
  function IndexUpdated(b: Base, item: KnowledgeItem, remove: bool): Base {
    if !b.built then b.(index := Build(b.items), built := true)
    else if remove then b.(index := RemovePostings(b.index, item.id, IndexTerms(item)))
    else b.(index := AddPostings(b.index, item.id, IndexTerms(item)))
  }

  // ---------------------------------------------------------------------
  // add_item

  /** `item.id[1:]`. */
  function IdTail(id: string): string {
    if |id| >= 1 then id[1..] else ""
  }

  /** One step of the id loop: `max(max_id, num)` when the tail parsed. */
  function MaxStep(m: nat, p: Option<int>): (r: nat)
    ensures r >= m && (p.Some? ==> p.value <= r)
  {
    match p
    case Some(n) => if n > m then n else m
    case None => m
  }

  /** The largest `int(item.id[1:])` over the items, and at least 0; ids
      whose tail does not parse are skipped. */
  function MaxId(items: seq<KnowledgeItem>): (m: nat)
    ensures forall it :: it in items && ParseInt(IdTail(it.id)).Some? ==> ParseInt(IdTail(it.id)).value <= m
  {
    if items == [] then 0
    else
      var rest := MaxId(items[1..]);
      assert forall it :: it in items ==> it == items[0] || it in items[1..];
      MaxStep(rest, ParseInt(IdTail(items[0].id)))
  }

  /** The loop may take the steps in either order. */
  lemma MaxStepSwap(a: nat, b: nat, p: Option<int>)
    ensures Max(MaxStep(a, p), b) == Max(a, MaxStep(b, p))
  {
  }

  function Max(a: nat, b: nat): nat {
    if a > b then a else b
  }

  /** `f"K{max_id + 1:03d}"`. */
  function NewId(items: seq<KnowledgeItem>): string {
    "K" + ZeroPad(Decimal(MaxId(items) + 1), 3)
  }

  /** The tail of a new id reads back as the number it was made from. */
  lemma NewIdTail(n: nat)
    ensures ParseInt(IdTail("K" + ZeroPad(Decimal(n), 3))) == Some(n)
  {
    var p := ZeroPad(Decimal(n), 3);
    assert IdTail("K" + p) == p;
    ParsePadded(n, 3);
  }

  /** The new id is held by no item: its tail reads back as one more than
      every tail that parses. */
  lemma NewIdFresh(items: seq<KnowledgeItem>)
    ensures forall it :: it in items ==> it.id != NewId(items)
  {
    NewIdTail(MaxId(items) + 1);
  }

  /** The item `add_item` creates. */
  function NewItem(items: seq<KnowledgeItem>, question: string, answer: string, keywords: seq<string>, category: string): KnowledgeItem {
    KnowledgeItem(NewId(items), question, answer, keywords, category, 1.0)
  }

  /** `add_item`: the item is appended, then the index updated. */
  function Added(b: Base, question: string, answer: string, keywords: seq<string>, category: string): Base {
    var item := NewItem(b.items, question, answer, keywords, category);
    IndexUpdated(b.(items := b.items + [item]), item, false)
  }

  /** Adding keeps the store coherent, appends the new item under a fresh id
      and leaves the index built. */
  lemma AddedCoherent(b: Base, question: string, answer: string, keywords: seq<string>, category: string)
    requires Coherent(b)
    ensures var r := Added(b, question, answer, keywords, category);
            && Coherent(r)
            && r.built
            && r.items == b.items + [NewItem(b.items, question, answer, keywords, category)]
            && forall it :: it in b.items ==> it.id != NewId(b.items)
  {
    var item := NewItem(b.items, question, answer, keywords, category);
    NewIdFresh(b.items);
    AppendUnique(b.items, item);
    if b.built {
      AddAgrees(b.index, b.items, item, IndexTerms);
    } else {
      BuildAgrees(b.items + [item]);
    }
  }

  // ---------------------------------------------------------------------
  // delete_item

  /** `delete_item(id)` as written: the index is updated before the item is
      deleted, so an unbuilt index is built with the item still present. */
  function DeletedAsWritten(b: Base, id: string): (r: (Base, bool))
    ensures !r.1 <==> forall j :: 0 <= j < |b.items| ==> b.items[j].id != id
    ensures !r.1 ==> r.0 == b
    ensures r.1 ==> |r.0.items| == |b.items| - 1 && r.0.built
  {
    var i := FirstIndex(b.items, id);
    if i < 0 then (b, false)
    else
      var b1 := IndexUpdated(b, b.items[i], true);
      (b1.(items := Without(b1.items, i)), true)
  }

  /** `delete_item(id)` with the index brought in step with the remaining
      items: postings removed from a built index, or the index built after
      the deletion. */
  function Deleted(b: Base, id: string): (Base, bool) {
    var i := FirstIndex(b.items, id);
    if i < 0 then (b, false)
    else if b.built then (Base(Without(b.items, i), RemovePostings(b.index, id, IndexTerms(b.items[i])), true), true)
    else
      var rest := Without(b.items, i);
      (Base(rest, Build(rest), true), true)
  }

  /** The parts of a deletion at the first position of the id. */
  lemma DeletedAt(b: Base, id: string, i: int)
    requires i == FirstIndex(b.items, id)
    ensures i < 0 ==> Deleted(b, id) == (b, false)
    ensures i >= 0 ==> var (r, ok) := Deleted(b, id);
                       && ok && r.built && r.items == Without(b.items, i)
                       && r.index == if b.built then RemovePostings(b.index, id, IndexTerms(b.items[i]))
                                     else Build(Without(b.items, i))
  {
  }

  /** On a built index the two deletions agree. */
  lemma DeletedAsWrittenWhenBuilt(b: Base, id: string)
    requires b.built
    ensures DeletedAsWritten(b, id) == Deleted(b, id)
  {
  }

  /** Deleting keeps the store coherent, reports whether an item had the id,
      and removes exactly that item. */
  lemma DeletedCoherent(b: Base, id: string)
    requires Coherent(b)
    ensures var (r, ok) := Deleted(b, id);
            && Coherent(r)
            && (ok <==> exists it :: it in b.items && it.id == id)
            && (forall w :: w in r.items <==> w in b.items && w.id != id)
  {
    var i := FirstIndex(b.items, id);
    if i >= 0 {
      WithoutMembers(b.items, i);
      assert b.items[i] in b.items;
      if b.built {
        RemoveAgrees(b.index, b.items, i, IndexTerms);
      } else {
        BuildAgrees(Without(b.items, i));
      }
    } else {
      forall it | it in b.items ensures it.id != id {
        var j :| 0 <= j < |b.items| && b.items[j] == it;
      }
    }
  }

  /** A non-blank keyword is an index term of its item. */
  lemma KeywordIndexed(it: KnowledgeItem, k: string)
    requires k in it.keywords && Term(k) != ""
    ensures Term(k) in IndexTerms(it)
  {
    assert Term(k) in KeywordTerms(it.keywords);
  }

  /** The index built from one item lists it, alone, under each of its terms. */
  lemma BuildOne(it: KnowledgeItem, t: string, termsOf: TermsOf)
    requires t in termsOf(it)
    ensures t in BuildFrom(map[], [it], termsOf) && BuildFrom(map[], [it], termsOf)[t] == [it.id]
  {
    assert [it][1..] == [];
  }

  /** An index that lists an id under some term does not agree with an
      empty item list. */
  lemma NothingAgreesWithNoItems(idx: Index, t: string, x: string, termsOf: TermsOf)
    requires t in idx && x in idx[t]
    ensures !Agrees(idx, [], termsOf)
  {
    assert !HasTerm([], x, t, termsOf);
  }

  /** After a cache-hit load the index is unbuilt; deleting the only item
      then builds the index from the item list that still holds it, so the
      deleted id stays listed under each of its keywords and the store is no
      longer coherent. */
  lemma DeleteUnbuiltLeavesStale(it: KnowledgeItem, k: string)
    requires k in it.keywords && Term(k) != ""
    ensures var (r, ok) := DeletedAsWritten(Loaded(CacheHit([it]), []), it.id);
            && ok && r.built && r.items == []
            && Term(k) in r.index && it.id in r.index[Term(k)]
            && !Coherent(r)
  {
    KeywordIndexed(it, k);
    BuildOne(it, Term(k), IndexTerms);
    LoadedCacheHit([it], []);
    DeletedOnlyItem(it);
    NothingAgreesWithNoItems(Build([it]), Term(k), it.id, IndexTerms);
  }

  /** The written deletion of the only item of a store whose index is unbuilt. */
  lemma DeletedOnlyItem(it: KnowledgeItem)
    ensures var (r, ok) := DeletedAsWritten(Base([it], map[], false), it.id);
            ok && r.built && r.items == [] && r.index == Build([it])
  {
    FirstIndexOnly(it);
    assert Without([it], 0) == [];
  }

  // ---------------------------------------------------------------------
  // update_item

  /** The fields `update_item` may set; `None` leaves a field as it is. */
  datatype ItemUpdate = ItemUpdate(
    question: Option<string>,
    answer: Option<string>,
    keywords: Option<seq<string>>,
    category: Option<string>,
    score: Option<real>)

  function Apply(it: KnowledgeItem, u: ItemUpdate): (r: KnowledgeItem)
    ensures r.id == it.id
  {
    KnowledgeItem(
      it.id,
      u.question.GetOr(it.question),
      u.answer.GetOr(it.answer),
      u.keywords.GetOr(it.keywords),
      u.category.GetOr(it.category),
      u.score.GetOr(it.score))
  }

  /** `update_item(id, **fields)` as written: the old postings are removed
      (which builds an unbuilt index from the old item), the fields are set,
      and the new postings are added. */
  function UpdatedAsWritten(b: Base, id: string, u: ItemUpdate): (r: (Base, bool))
    ensures !r.1 <==> forall j :: 0 <= j < |b.items| ==> b.items[j].id != id
    ensures !r.1 ==> r.0 == b
    ensures r.1 ==> |r.0.items| == |b.items| && r.0.built
                    && r.0.items[FirstIndex(b.items, id)] == Apply(b.items[FirstIndex(b.items, id)], u)
  {
    var i := FirstIndex(b.items, id);
    if i < 0 then (b, false)
    else
      var updated := Apply(b.items[i], u);
      var b1 := IndexUpdated(b, b.items[i], true);
      var b2 := b1.(items := b1.items[i := updated]);
      (IndexUpdated(b2, updated, false), true)
  }

  /** `update_item` with an unbuilt index built from the updated items. */
  function Updated(b: Base, id: string, u: ItemUpdate): (Base, bool) {
    var i := FirstIndex(b.items, id);
    if i < 0 then (b, false)
    else
      var old_ := b.items[i];
      var updated := Apply(old_, u);
      var items := b.items[i := updated];
      if b.built then
        (Base(items, Reposted(b.index, id, IndexTerms(old_), IndexTerms(updated)), true), true)
      else (Base(items, Build(items), true), true)
  }

  lemma UpdatedAsWrittenWhenBuilt(b: Base, id: string, u: ItemUpdate)
    requires b.built
    ensures UpdatedAsWritten(b, id, u) == Updated(b, id, u)
  {
  }

  /** Updating keeps the store coherent, reports whether an item had the
      id, and replaces that item by its updated form in place. */
  lemma UpdatedCoherent(b: Base, id: string, u: ItemUpdate)
    requires Coherent(b)
    ensures var (r, ok) := Updated(b, id, u);
            var i := FirstIndex(b.items, id);
            && Coherent(r)
            && (ok <==> i >= 0)
            && (ok ==> r.items == b.items[i := Apply(b.items[i], u)])
  {
    var i := FirstIndex(b.items, id);
    if i >= 0 {
      UpdateStep(b, i, Apply(b.items[i], u));
    }
  }

  lemma UpdateStep(b: Base, i: nat, updated: KnowledgeItem)
    requires Coherent(b) && i < |b.items| && updated.id == b.items[i].id
    ensures UniqueIds(b.items[i := updated])
    ensures b.built ==> Agrees(Reposted(b.index, updated.id, IndexTerms(b.items[i]), IndexTerms(updated)),
                               b.items[i := updated], IndexTerms)
    ensures Agrees(Build(b.items[i := updated]), b.items[i := updated], IndexTerms)
  {
    if b.built {
      UpdateAgrees(b.index, b.items, i, updated, IndexTerms);
    } else {
      BuildAgrees(b.items);
      UpdateAgrees(Build(b.items), b.items, i, updated, IndexTerms);
    }
    BuildAgrees(b.items[i := updated]);
  }

  /** After a cache-hit load, an update of the only item that drops one of
      its keywords leaves the item listed under that keyword: the first
      index update built the index from the old item. */
  lemma UpdateUnbuiltLeavesStale(it: KnowledgeItem, k: string, u: ItemUpdate)
    requires k in it.keywords && Term(k) != ""
    requires Term(k) !in IndexTerms(Apply(it, u))
    ensures var (r, ok) := UpdatedAsWritten(Loaded(CacheHit([it]), []), it.id, u);
            && ok && r.built
            && Term(k) in r.index && it.id in r.index[Term(k)]
            && !Coherent(r)
  {
    KeywordIndexed(it, k);
    BuildOne(it, Term(k), IndexTerms);
    var n := Apply(it, u);
    LoadedCacheHit([it], []);
    UpdatedOnlyItem(it, u);
    StaleTermKept(Build([it]), it.id, IndexTerms(n), Term(k), n, IndexTerms);
  }

  /** The written update of the only item of a store whose index is unbuilt. */
  lemma UpdatedOnlyItem(it: KnowledgeItem, u: ItemUpdate)
    ensures var n := Apply(it, u);
            var (r, ok) := UpdatedAsWritten(Base([it], map[], false), it.id, u);
            ok && r.built && r.items == [n] && r.index == AddPostings(Build([it]), it.id, IndexTerms(n))
  {
    var b := Base([it], map[], false);
    FirstIndexOnly(it);
    UpdatedAsWrittenUnbuilt(b, it.id, u, 0);
    assert b.items[0 := Apply(it, u)] == [Apply(it, u)];
  }

  lemma FirstIndexOnly(it: KnowledgeItem)
    ensures FirstIndex([it], it.id) == 0
  {
  }

  lemma LoadedCacheHit(items: seq<KnowledgeItem>, defaults: seq<KnowledgeItem>)
    ensures Loaded(CacheHit(items), defaults) == Base(items, map[], false)
  {
  }

  /** On an unbuilt index the written update builds the index from the old
      items and then adds the updated item's postings. */
  lemma UpdatedAsWrittenUnbuilt(b: Base, id: string, u: ItemUpdate, i: nat)
    requires !b.built && FirstIndex(b.items, id) == i
    ensures var n := Apply(b.items[i], u);
            var (r, ok) := UpdatedAsWritten(b, id, u);
            ok && r.built && r.items == b.items[i := n] && r.index == AddPostings(Build(b.items), id, IndexTerms(n))
  {
  }

  /** Adding postings for an item that lacks term `t` leaves `t`'s old
      posting in place, which then names an item without that term. */
  lemma StaleTermKept(idx: Index, id: string, terms: set<string>, t: string, n: KnowledgeItem, termsOf: TermsOf)
    requires t in idx && id in idx[t] && t !in terms && n.id == id && terms == termsOf(n)
    ensures var r := AddPostings(idx, id, terms);
            t in r && id in r[t] && !Agrees(r, [n], termsOf)
  {
    var r := AddPostings(idx, id, terms);
    AddPostingsFacts(idx, id, terms);
    assert !HasTerm([n], id, t, termsOf);
  }

  /** An item with empty question and category and no keywords has no
      index terms, so an update to that form drops every old keyword. */
  lemma BlankItemUnindexed(it: KnowledgeItem)
    requires it.question == "" && it.category == "" && it.keywords == []
    ensures IndexTerms(it) == {}
  {
    assert IsBlank("");
    assert ExtractTokens("") == [];
    assert Take<string>([], QuestionTermLimit) == [];
  }
}
