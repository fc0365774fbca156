/** `core/conversation.py`: messages, conversations with their human
    hand-over status, their dictionary form, and the manager that registers
    them and pages through them. Clock readings and fresh uuids are
    parameters; the JSON files conversations are saved to are not part of
    this model. */
module Conversations {
  import opened Wrappers
  import opened PyText
  import opened Ranking
  import opened JsonValue
  import KnowledgeIndex
  import opened QueryText

  const DefaultTitle := "新对话"
  const TitleLength := 20
  const Normal := "normal"
  const PendingHuman := "pending_human"
  const HumanHandling := "human_handling"
  const HumanClosed := "human_closed"
  const DefaultAgent := "human_agent"
  const DefaultPageSize := 20

  /** `Message`; a missing confidence is None and a missing trace is JNull. */
  datatype Message = Message(role: string, content: string, timestamp: string, confidence: Option<real>, trace: Json)

  /** `Message.to_dict`: the confidence and the trace only when present. */
  function MessageToDict(m: Message): Json {
    JObject([("role", JStr(m.role)), ("content", JStr(m.content)), ("timestamp", JStr(m.timestamp))]
            + (if m.confidence.Some? then [("confidence", JNum(m.confidence.value))] else [])
            + (if m.trace != JNull then [("rag_trace", m.trace)] else []))
  }

  /** `Message.from_dict`: None where a required key is missing; a falsy
      timestamp becomes `now`. */
  function MessageFromDict(d: Json, now: string): Option<Message> {
    if !d.JObject? then None
    else
      var role := Lookup(d.fields, "role");
      var content := Lookup(d.fields, "content");
      var timestamp := GetOr(d.fields, "timestamp", JNull);
      var confidence := GetOr(d.fields, "confidence", JNull);
      if role.None? || !role.value.JStr? || content.None? || !content.value.JStr? then None
      else if Truthy(timestamp) && !timestamp.JStr? then None
      else if !confidence.JNull? && !confidence.JNum? then None
      else
        Some(Message(role.value.s, content.value.s, if Truthy(timestamp) then timestamp.s else now,
                     if confidence.JNum? then Some(confidence.x) else None,
                     GetOr(d.fields, "rag_trace", JNull)))
  }

  /** A message with a timestamp survives `from_dict(to_dict(m))`, a
      missing confidence or trace included. */
  lemma MessageRoundTrip(m: Message, now: string)
    requires m.timestamp != ""
    ensures MessageFromDict(MessageToDict(m), now) == Some(m)
  {
    var fs := MessageToDict(m).fields;
    LookupAt(fs, "role", 0);
    LookupAt(fs, "content", 1);
    LookupAt(fs, "timestamp", 2);
    if m.confidence.Some? {
      LookupAt(fs, "confidence", 3);
      if m.trace != JNull {
        LookupAt(fs, "rag_trace", 4);
      } else {
        LookupMissing(fs, "rag_trace");
      }
    } else {
      LookupMissing(fs, "confidence");
      if m.trace != JNull {
        LookupAt(fs, "rag_trace", 3);
      } else {
        LookupMissing(fs, "rag_trace");
      }
    }
  }

  /** The state of a conversation, as `to_dict` lists it. */
  datatype Snapshot = Snapshot(id: string, title: string, messages: seq<Message>, createdAt: string,
                               updatedAt: string, status: string, agent: Option<string>)

  function MessagesToDicts(ms: seq<Message>): (r: seq<Json>)
    ensures |r| == |ms|
    ensures forall i :: 0 <= i < |ms| ==> r[i] == MessageToDict(ms[i])
  {
    if ms == [] then [] else [MessageToDict(ms[0])] + MessagesToDicts(ms[1..])
  }

  function MessagesFromDicts(ds: seq<Json>, now: string): Option<seq<Message>> {
    if ds == [] then Some([])
    else
      match MessageFromDict(ds[0], now)
      case None => None
      case Some(m) =>
        match MessagesFromDicts(ds[1..], now)
        case None => None
        case Some(ms) => Some([m] + ms)
  }

  lemma {:induction false} MessagesRoundTrip(ms: seq<Message>, now: string)
    requires forall m :: m in ms ==> m.timestamp != ""
    ensures MessagesFromDicts(MessagesToDicts(ms), now) == Some(ms)
  {
    if ms != [] {
      var ds := MessagesToDicts(ms);
      assert ds == [MessageToDict(ms[0])] + MessagesToDicts(ms[1..]);
      assert ds[0] == MessageToDict(ms[0]) && ds[1..] == MessagesToDicts(ms[1..]);
      MessageRoundTrip(ms[0], now);
      assert MessageFromDict(ds[0], now) == Some(ms[0]);
      MessagesRoundTrip(ms[1..], now);
      assert MessagesFromDicts(ds[1..], now) == Some(ms[1..]);
      ParsedCons(ds, now, ms[0], ms[1..]);
      assert ms == [ms[0]] + ms[1..];
    }
  }

  lemma ParsedCons(ds: seq<Json>, now: string, m: Message, ms: seq<Message>)
    requires ds != [] && MessageFromDict(ds[0], now) == Some(m) && MessagesFromDicts(ds[1..], now) == Some(ms)
    ensures MessagesFromDicts(ds, now) == Some([m] + ms)
  {
  }

  /** `Conversation.to_dict`. */
  function ToDict(s: Snapshot): Json {
    JObject([("id", JStr(s.id)), ("title", JStr(s.title)), ("messages", JList(MessagesToDicts(s.messages))),
             ("created_at", JStr(s.createdAt)), ("updated_at", JStr(s.updatedAt)), ("status", JStr(s.status)),
             ("human_agent_id", if s.agent.Some? then JStr(s.agent.value) else JNull)])
  }

  /** `Conversation.from_dict`, with `now` the constructor's clock reading
      and `newId` the uuid it draws for a falsy id. None where a required
      key is missing or a value has a type the class does not hold. */
  function FromDict(d: Json, now: string, newId: string): Option<Snapshot> {
    if !d.JObject? then None
    else
      var id := Lookup(d.fields, "id");
      var title := Lookup(d.fields, "title");
      var messages := GetOr(d.fields, "messages", JList([]));
      var createdAt := GetOr(d.fields, "created_at", JStr(now));
      var updatedAt := GetOr(d.fields, "updated_at", JStr(now));
      var status := GetOr(d.fields, "status", JStr(Normal));
      var agent := GetOr(d.fields, "human_agent_id", JNull);
      if id.None? || (Truthy(id.value) && !id.value.JStr?) || title.None? || !title.value.JStr? then None
      else if !messages.JList? || !createdAt.JStr? || !updatedAt.JStr? || !status.JStr? then None
      else if !agent.JNull? && !agent.JStr? then None
      else
        match MessagesFromDicts(messages.elems, now)
        case None => None
        case Some(ms) =>
          Some(Snapshot(if Truthy(id.value) then id.value.s else newId, title.value.s, ms, createdAt.s,
                        updatedAt.s, status.s, if agent.JStr? then Some(agent.s) else None))
  }

  /** `from_dict(to_dict(c))` gives back the id, title, status, agent,
      timestamps and messages of every conversation with an id whose
      messages carry timestamps. */
  lemma ConversationRoundTrip(s: Snapshot, now: string, newId: string)
    requires s.id != ""
    requires forall m :: m in s.messages ==> m.timestamp != ""
    ensures FromDict(ToDict(s), now, newId) == Some(s)
  {
    MessagesRoundTrip(s.messages, now);
    ToDictLookups(s);
    ReadBack(ToDict(s).fields, now, newId, s, MessagesToDicts(s.messages));
  }

  /** Each key of `to_dict` reads back its own value. */
  lemma ToDictLookups(s: Snapshot)
    ensures var fs := ToDict(s).fields;
            && Lookup(fs, "id") == Some(JStr(s.id)) && Lookup(fs, "title") == Some(JStr(s.title))
            && Lookup(fs, "messages") == Some(JList(MessagesToDicts(s.messages)))
            && Lookup(fs, "created_at") == Some(JStr(s.createdAt)) && Lookup(fs, "updated_at") == Some(JStr(s.updatedAt))
            && Lookup(fs, "status") == Some(JStr(s.status))
            && Lookup(fs, "human_agent_id") == Some(if s.agent.Some? then JStr(s.agent.value) else JNull)
  {
    var fs := ToDict(s).fields;
    LookupAt(fs, "id", 0);
    LookupAt(fs, "title", 1);
    LookupAt(fs, "messages", 2);
    LookupAt(fs, "created_at", 3);
    LookupAt(fs, "updated_at", 4);
    LookupAt(fs, "status", 5);
    LookupAt(fs, "human_agent_id", 6);
  }

  lemma ReadBack(fs: seq<(string, Json)>, now: string, newId: string, s: Snapshot, ds: seq<Json>)
    requires s.id != ""
    requires Lookup(fs, "id") == Some(JStr(s.id)) && Lookup(fs, "title") == Some(JStr(s.title))
    requires Lookup(fs, "messages") == Some(JList(ds)) && MessagesFromDicts(ds, now) == Some(s.messages)
    requires Lookup(fs, "created_at") == Some(JStr(s.createdAt)) && Lookup(fs, "updated_at") == Some(JStr(s.updatedAt))
    requires Lookup(fs, "status") == Some(JStr(s.status))
    requires Lookup(fs, "human_agent_id") == Some(if s.agent.Some? then JStr(s.agent.value) else JNull)
    ensures FromDict(JObject(fs), now, newId) == Some(s)
  {
  }

  /** The title a user message's content gives: its first 20 characters,
      with "..." when it was longer. */
  function TitleFor(content: string): (t: string)
    ensures |content| <= TitleLength ==> t == content
    ensures |content| > TitleLength ==> |t| == TitleLength + 3 && t == content[..TitleLength] + "..."
  {
    Take(content, TitleLength) + (if |content| > TitleLength then "..." else "")
  }

  /** The title after one `add_message`: only a user message replaces it,
      and only while it is still the default. */
  function Retitled(title: string, role: string, content: string): string {
    if role == "user" && title == DefaultTitle then TitleFor(content) else title
  }

  /** The title after a run of `add_message(role, content)` calls. */
  function TitleAfter(title: string, added: seq<(string, string)>): string
    decreases |added|
  {
    if added == [] then title else TitleAfter(Retitled(title, added[0].0, added[0].1), added[1..])
  }

  /** The title of the first user message whose title is not the default. */
  function FirstUserTitle(added: seq<(string, string)>): Option<string> {
    if added == [] then None
    else if added[0].0 == "user" && TitleFor(added[0].1) != DefaultTitle then Some(TitleFor(added[0].1))
    else FirstUserTitle(added[1..])
  }

  lemma {:induction false} TitleKept(title: string, added: seq<(string, string)>)
    requires title != DefaultTitle
    ensures TitleAfter(title, added) == title
  {
    if added != [] {
      TitleKept(title, added[1..]);
    }
  }

  /** A fresh conversation is titled after its first user message (unless
      that message's title is the default itself) and keeps that title. */
  lemma {:induction false} TitleFromFirstUser(added: seq<(string, string)>)
    ensures TitleAfter(DefaultTitle, added) == FirstUserTitle(added).GetOr(DefaultTitle)
  {
    if added != [] {
      var t := Retitled(DefaultTitle, added[0].0, added[0].1);
      if t != DefaultTitle {
        TitleKept(t, added[1..]);
      } else {
        TitleFromFirstUser(added[1..]);
      }
    }
  }

  /** The conversation after `add_message`: one message at the end, the
      title rule, and the update time. */
  function Added(s: Snapshot, m: Message, now: string): Snapshot {
    s.(title := Retitled(s.title, m.role, m.content), messages := s.messages + [m], updatedAt := now)
  }

  predicate KnownStatus(status: string) {
    status == Normal || status == PendingHuman || status == HumanHandling || status == HumanClosed
  }

  /** `Conversation`. */
  class Conversation {
    const id: string
    var title: string
    var messages: seq<Message>
    var createdAt: string
    var updatedAt: string
    var status: string
    var agent: Option<string>

    function State(): Snapshot
      reads this
    {
      Snapshot(id, title, messages, createdAt, updatedAt, status, agent)
    }

    /** `Conversation()`: a new conversation at `now` with uuid `newId`. */
    constructor (newId: string, now: string)
      ensures State() == Snapshot(newId, DefaultTitle, [], now, now, Normal, None)
      ensures KnownStatus(status)
    {
      id, title, messages := newId, DefaultTitle, [];
      createdAt, updatedAt, status, agent := now, now, Normal, None;
    }

    /** The conversation `from_dict` built. */
    constructor Load(s: Snapshot)
      ensures State() == s
    {
      id, title, messages := s.id, s.title, s.messages;
      createdAt, updatedAt, status, agent := s.createdAt, s.updatedAt, s.status, s.agent;
    }

    /** `add_message`; `now` is the clock reading, which also stamps the message. */
    method AddMessage(role: string, content: string, confidence: Option<real>, trace: Json, now: string)
      returns (m: Message)
      modifies this
      ensures m == Message(role, content, now, confidence, trace)
      ensures State() == Added(old(State()), m, now)
      ensures messages[..|old(messages)|] == old(messages) && messages[|messages| - 1] == m
    {
      m := Message(role, content, now, confidence, trace);
      messages := messages + [m];
      updatedAt := now;
      if role == "user" && title == DefaultTitle {
        title := TitleFor(content);
      }
    }

    /** `transfer_to_human`. */
    method TransferToHuman(now: string)
      modifies this
      ensures State() == old(State()).(status := PendingHuman, updatedAt := now)
      ensures KnownStatus(status)
    {
      status, updatedAt := PendingHuman, now;
    }

    /** `accept_by_human(agent_id)`. */
    method AcceptByHuman(agentId: string, now: string)
      modifies this
      ensures State() == old(State()).(status := HumanHandling, agent := Some(agentId), updatedAt := now)
      ensures KnownStatus(status)
    {
      status, agent, updatedAt := HumanHandling, Some(agentId), now;
    }

    /** `close_human_service`. */
    method CloseHumanService(now: string)
      modifies this
      ensures State() == old(State()).(status := HumanClosed, updatedAt := now)
      ensures KnownStatus(status)
    {
      status, updatedAt := HumanClosed, now;
    }

    /** `back_to_ai`. */
    method BackToAi(now: string)
      modifies this
      ensures State() == old(State()).(status := Normal, agent := None, updatedAt := now)
      ensures KnownStatus(status)
    {
      status, agent, updatedAt := Normal, None, now;
    }
  }

  /** `get_conversations_page(page, page_size)` on the sorted list: the
      page's slice and the page count. A page size of None or 0 means 20. */
  function ConversationsPage<T>(all: seq<T>, page: int, pageSize: Option<int>): (seq<T>, int) {
    var size := if pageSize.None? || pageSize.value == 0 then DefaultPageSize else pageSize.value;
    var start := (page - 1) * size;
    (Slice(all, start, start + size), FloorDiv(|all| + size - 1, size))
  }

  function Min(a: int, b: int): int {
    if a <= b then a else b
  }

  /** Where page `page` starts: `(page - 1) * size`. */
  function PageStart(page: int, size: int): (start: nat)
    requires page >= 1 && size >= 1
    ensures start + size == page * size
  {
    MulNonNegative(page - 1, size);
    (page - 1) * size
  }

  /** For a positive page size the page count is the ceiling of the number
      of conversations over the size, and page `p` is the slice
      `[(p - 1) * size, p * size)`, non-empty exactly for the pages 1 to
      the count. */
  lemma PageFacts<T>(all: seq<T>, page: int, size: int)
    requires size >= 1 && page >= 1
    ensures var (items, total) := ConversationsPage(all, page, Some(size));
            && (total - 1) * size < |all| <= total * size
            && items == (if PageStart(page, size) < |all| then all[PageStart(page, size)..Min(page * size, |all|)] else [])
            && (items != [] <==> page <= total)
  {
    var n := |all|;
    var total := FloorDiv(n + size - 1, size);
    var start := PageStart(page, size);
    assert ConversationsPage(all, page, Some(size)) == (Slice(all, start, start + size), total);
    MulPred(total, size);
    SliceFrom(all, start, start + size);
    if page <= total {
      MulLe(page - 1, total - 1, size);
    } else {
      MulLe(total, page - 1, size);
    }
  }

  /** `(a - 1) * b == a * b - b`. */
  lemma MulPred(a: int, b: int)
    ensures (a - 1) * b == a * b - b
  {
  }

  lemma MulLe(a: int, b: int, c: int)
    requires a <= b && c >= 0
    ensures a * c <= b * c
  {
    MulNonNegative(b - a, c);
    assert (b - a) * c == b * c - a * c;
  }

  /** A slice with bounds that are not negative. */
  lemma SliceFrom<T>(s: seq<T>, lo: int, hi: int)
    requires 0 <= lo <= hi
    ensures Slice(s, lo, hi) == if lo < |s| then s[lo..Min(hi, |s|)] else []
  {
  }

  lemma MulNonNegative(a: int, b: int)
    requires a >= 0 && b >= 0
    ensures a * b >= 0
  {
  }

  /** Pages 1 to `k` one after another. */
  function PagesUpTo<T>(all: seq<T>, size: int, k: nat): seq<T>
    requires size >= 1
  {
    if k == 0 then [] else PagesUpTo(all, size, k - 1) + ConversationsPage(all, k, Some(size)).0
  }

  /** The items up to `p` followed by those from `p` to `q` are the items up to `q`. */
  lemma PageAppended<T>(all: seq<T>, p: int, q: int)
    requires 0 <= p <= q
    ensures all[..Min(p, |all|)] + (if p < |all| then all[p..Min(q, |all|)] else []) == all[..Min(q, |all|)]
  {
    if p < |all| {
      assert all[..p] + all[p..Min(q, |all|)] == all[..Min(q, |all|)];
    }
  }

  lemma {:induction false} PagesPrefix<T>(all: seq<T>, size: int, k: nat)
    requires size >= 1
    ensures PagesUpTo(all, size, k) == all[..Min(k * size, |all|)]
  {
    if k > 0 {
      PagesPrefix(all, size, k - 1);
      PageFacts(all, k, size);
      var p, q := (k - 1) * size, k * size;
      assert p + size == q;
      MulNonNegative(k - 1, size);
      PageAppended(all, p, q);
    }
  }

  /** Reading pages 1 to the page count one after another gives every
      conversation once, in the sorted order. */
  lemma PagesCover<T>(all: seq<T>, size: int)
    requires size >= 1
    ensures var total := ConversationsPage(all, 1, Some(size)).1;
            total >= 0 && PagesUpTo(all, size, total) == all
  {
    var total := ConversationsPage(all, 1, Some(size)).1;
    PageFacts(all, 1, size);
    PagesPrefix(all, size, total);
  }

  /** `ConversationManager`: the conversations by id, in the order the
      dictionary keeps them, and the current one. */
  class ConversationManager {
    var conversations: map<string, Conversation>
    var order: seq<string>
    var current: Conversation?

    /** Every id is listed once in insertion order, and every conversation
        is filed under its own id. */
    predicate Valid()
      reads this
    {
      && (forall k :: k in order ==> k in conversations)
      && (forall k :: k in conversations ==> k in order)
      && NoDup(order)
      && (forall k :: k in conversations ==> conversations[k].id == k)
    }

    /** The manager before any conversation is loaded. */
    constructor ()
      ensures Valid() && conversations == map[] && order == [] && current == null
    {
      conversations, order, current := map[], [], null;
    }

    function Keyed(ids: seq<string>): (r: seq<(Conversation, string)>)
      requires forall k :: k in ids ==> k in conversations
      reads this, conversations.Values
      ensures |r| == |ids|
      ensures forall i :: 0 <= i < |ids| ==> r[i] == (conversations[ids[i]], conversations[ids[i]].updatedAt)
    {
      if ids == [] then [] else [(conversations[ids[0]], conversations[ids[0]].updatedAt)] + Keyed(ids[1..])
    }

    /** `get_all_conversations`: every conversation, latest update first;
        equal times keep the dictionary's order. */
    function AllConversations(): (r: seq<Conversation>)
      requires Valid()
      reads this, conversations.Values
      ensures |r| == |order|
      ensures multiset(r) == multiset(FirstsOf(Keyed(order)))
    {
      var keyed := Keyed(order);
      FirstsPerm(keyed, SortTextDesc(keyed));
      FirstsOf(SortTextDesc(keyed))
    }

    /** Latest update first. */
    lemma AllConversationsSorted()
      requires Valid()
      ensures var r := AllConversations();
              forall i, j :: 0 <= i < j < |r| ==> !TextLess(r[i].updatedAt, r[j].updatedAt)
    {
      var keyed := Keyed(order);
      var sorted := SortTextDesc(keyed);
      InSortedText(keyed);
      var r := AllConversations();
      forall i, j | 0 <= i < j < |r| ensures !TextLess(r[i].updatedAt, r[j].updatedAt) {
        assert r[i] == sorted[i].0 && r[j] == sorted[j].0;
        var a :| 0 <= a < |keyed| && keyed[a] == sorted[i];
        var b :| 0 <= b < |keyed| && keyed[b] == sorted[j];
      }
    }

    /** The sorted list holds every registered conversation and nothing else. */
    lemma AllConversationsComplete()
      requires Valid()
      ensures forall k :: k in conversations ==> conversations[k] in AllConversations()
      ensures forall c :: c in AllConversations() ==> c in conversations.Values
    {
      var keyed := Keyed(order);
      var r := AllConversations();
      forall k | k in conversations ensures conversations[k] in r {
        var i :| 0 <= i < |order| && order[i] == k;
        assert FirstsOf(keyed)[i] == conversations[k];
        assert conversations[k] in multiset(r);
      }
      forall c | c in r ensures c in conversations.Values {
        assert c in multiset(FirstsOf(keyed));
        var i :| 0 <= i < |keyed| && FirstsOf(keyed)[i] == c;
        assert conversations[order[i]] == c;
      }
    }

    /** `get_conversation`. */
    function Get(id: string): (c: Conversation?)
      reads this
      ensures c != null <==> id in conversations
      ensures c != null ==> c == conversations[id]
    {
      if id in conversations then conversations[id] else null
    }

    /** `create_conversation`: registers a new conversation under its uuid
        `newId` and makes it current. */
    method CreateConversation(newId: string, now: string) returns (c: Conversation)
      requires Valid()
      modifies this`conversations, this`order, this`current
      ensures Valid()
      ensures fresh(c) && c.State() == Snapshot(newId, DefaultTitle, [], now, now, Normal, None)
      ensures conversations == old(conversations)[newId := c] && current == c
      ensures order == if newId in old(conversations) then old(order) else old(order) + [newId]
    {
      c := new Conversation(newId, now);
      if newId !in conversations {
        order := order + [newId];
      }
      conversations := conversations[newId := c];
      current := c;
    }

    /** `delete_conversation`. */
    method DeleteConversation(id: string) returns (ok: bool)
      requires Valid()
      modifies this`conversations, this`order, this`current
      ensures Valid()
      ensures ok <==> id in old(conversations)
      ensures conversations == old(conversations) - {id}
      ensures order == if ok then KnowledgeIndex.RemoveFirst(old(order), id) else old(order)
      ensures current == if ok && old(current) != null && old(current).id == id then null else old(current)
    {
      if id !in conversations {
        return false;
      }
      order := KnowledgeIndex.RemoveFirst(order, id);
      conversations := conversations - {id};
      if current != null && current.id == id {
        current := null;
      }
      return true;
    }

    /** `set_current_conversation`: an unknown id leaves the current one. */
    method SetCurrentConversation(id: string) returns (c: Conversation?)
      modifies this`current
      ensures c == Get(id)
      ensures current == if c != null then c else old(current)
    {
      c := Get(id);
      if c != null {
        current := c;
      }
    }

    /** The conversation `add_message` writes to: the registered one with
        the current id, else the current one itself. */
    function Target(): Conversation?
      reads this
    {
      if current == null then null
      else if current.id in conversations then conversations[current.id]
      else current
    }

    /** `ConversationManager.add_message`: nothing without a current
        conversation; otherwise the registered copy becomes current and
        gets the message. */
    method AddMessage(role: string, content: string, confidence: Option<real>, trace: Json, now: string)
      returns (m: Option<Message>)
      modifies this`current, if Target() == null then {} else {Target()}
      ensures current == old(Target())
      ensures m.None? <==> old(current) == null
      ensures m.Some? ==> m.value == Message(role, content, now, confidence, trace)
                          && current.State() == Added(old(Target().State()), m.value, now)
    {
      if current == null {
        return None;
      }
      if current.id in conversations {
        current := conversations[current.id];
      }
      var msg := current.AddMessage(role, content, confidence, trace, now);
      return Some(msg);
    }
  }
}
