/** The data side of the operator workbench in `ui/workbench_interface.py`:
    pairing a conversation's user queries with the retrieval traces the
    answers carried, summarising a conversation for the session list, and
    the list's status filter. The widgets themselves are not modelled. */
module Workbench {
  import opened Wrappers
  import opened PyText
  import opened JsonValue
  import opened Conversations
  import opened RealSeq

  /** One parsed query: the user message's content and the trace of the
      answer it got (JNull when none). */
  datatype Entry = Entry(query: Json, trace: Json)

  /** The fold state of `load_trace`: the query still waiting for a trace,
      and the entries already closed. */
  datatype Pairing = Pairing(pending: Option<Entry>, parsed: seq<Entry>)

  /** The entries of a fold state once the waiting query is closed too. */
  function Closed(p: Pairing): seq<Entry> {
    p.parsed + (if p.pending.Some? then [p.pending.value] else [])
  }

  /** One message of the `load_trace` loop. A user message closes the
      waiting query and opens its own; an answer with a truthy trace
      attaches it to the waiting query and closes it; anything else,
      including a message that is not a dictionary, is skipped. */
  function PairStep(p: Pairing, msg: Json): Pairing {
    if !msg.JObject? then p
    else
      var role := GetOr(msg.fields, "role", JNull);
      var trace := GetOr(msg.fields, "rag_trace", JNull);
      if role == JStr("user") then Pairing(Some(Entry(GetOr(msg.fields, "content", JStr("")), JNull)), Closed(p))
      else if role == JStr("assistant") && p.pending.Some? && Truthy(trace) then
        Pairing(None, p.parsed + [p.pending.value.(trace := trace)])
      else p
  }

  /** The fold over a prefix of the messages. */
  function Paired(msgs: seq<Json>): Pairing {
    if msgs == [] then Pairing(None, []) else PairStep(Paired(msgs[..|msgs| - 1]), msgs[|msgs| - 1])
  }

  predicate IsUser(msg: Json) {
    msg.JObject? && GetOr(msg.fields, "role", JNull) == JStr("user")
  }

  /** The contents of the user messages, in order. */
  function UserQueries(msgs: seq<Json>): seq<Json> {
    if msgs == [] then []
    else
      UserQueries(msgs[..|msgs| - 1])
      + (if IsUser(msgs[|msgs| - 1]) then [GetOr(msgs[|msgs| - 1].fields, "content", JStr(""))] else [])
  }

  function Queries(es: seq<Entry>): (qs: seq<Json>)
    ensures |qs| == |es|
  {
    if es == [] then [] else Queries(es[..|es| - 1]) + [es[|es| - 1].query]
  }

  lemma {:induction false} QueriesAppend(a: seq<Entry>, b: seq<Entry>)
    ensures Queries(a + b) == Queries(a) + Queries(b)
    decreases |b|
  {
    if b != [] {
      assert (a + b)[..|a + b| - 1] == a + b[..|b| - 1];
      assert (a + b)[|a + b| - 1] == b[|b| - 1];
      QueriesAppend(a, b[..|b| - 1]);
      assert Queries(b) == Queries(b[..|b| - 1]) + [b[|b| - 1].query];
    } else {
      assert a + b == a;
    }
  }

  /** A trace attached to an entry is a truthy one. */
  predicate TracesTruthy(es: seq<Entry>) {
    forall i :: 0 <= i < |es| ==> es[i].trace == JNull || Truthy(es[i].trace)
  }

  /** Each user message yields exactly one entry, in order, and every
      attached trace is a truthy one, whatever else the messages hold. */
  lemma {:induction false} PairedQueries(msgs: seq<Json>)
    ensures Queries(Closed(Paired(msgs))) == UserQueries(msgs)
    ensures TracesTruthy(Closed(Paired(msgs)))
    ensures Paired(msgs).pending.Some? ==> Paired(msgs).pending.value.trace == JNull
  {
    if msgs != [] {
      var init := msgs[..|msgs| - 1];
      var msg := msgs[|msgs| - 1];
      var p := Paired(init);
      PairedQueries(init);
      var q := PairStep(p, msg);
      assert Paired(msgs) == q;
      if msg.JObject? {
        var role := GetOr(msg.fields, "role", JNull);
        var trace := GetOr(msg.fields, "rag_trace", JNull);
        if role == JStr("user") {
          var e := Entry(GetOr(msg.fields, "content", JStr("")), JNull);
          QueriesAppend(Closed(p), [e]);
          assert Queries([e]) == [e.query];
        } else if role == JStr("assistant") && p.pending.Some? && Truthy(trace) {
          QueriesAppend(p.parsed, [p.pending.value]);
          QueriesAppend(p.parsed, [p.pending.value.(trace := trace)]);
          assert Queries([p.pending.value]) == [p.pending.value.query];
          assert Queries([p.pending.value.(trace := trace)]) == [p.pending.value.query];
          assert Closed(q) == p.parsed + [p.pending.value.(trace := trace)];
        }
      }
    }
  }

  /** What a message does to the search for an answer's trace: a user
      message ends it with no trace, an answer carrying a truthy trace ends
      it with that trace, anything else lets it go on (None). */
  function Stop(msg: Json): Option<Json> {
    if IsUser(msg) then Some(JNull)
    else if msg.JObject? && GetOr(msg.fields, "role", JNull) == JStr("assistant")
            && Truthy(GetOr(msg.fields, "rag_trace", JNull)) then Some(GetOr(msg.fields, "rag_trace", JNull))
    else None
  }

  /** The search for a trace from position `k` on: None when it runs off
      the end of the conversation. */
  function Scan(msgs: seq<Json>, k: nat): Option<Json>
    decreases |msgs| - k
  {
    if k >= |msgs| then None
    else if Stop(msgs[k]).Some? then Stop(msgs[k])
    else Scan(msgs, k + 1)
  }

  /** The trace owed to a user message at `k - 1`: the first truthy
      `rag_trace` of an answer after it and before the next user message,
      else none (JNull). */
  function TraceAfter(msgs: seq<Json>, k: nat): Json {
    Scan(msgs, k).GetOr(JNull)
  }

  /** The positions of the user messages, in order. */
  function UserPositions(msgs: seq<Json>): (us: seq<nat>)
    ensures forall i :: 0 <= i < |us| ==> us[i] < |msgs| && IsUser(msgs[us[i]])
  {
    if msgs == [] then []
    else UserPositions(msgs[..|msgs| - 1]) + (if IsUser(msgs[|msgs| - 1]) then [|msgs| - 1] else [])
  }

  function Content(msg: Json): Json
    requires msg.JObject?
  {
    GetOr(msg.fields, "content", JStr(""))
  }

  /** One more message only matters to a search that had run off the end. */
  lemma {:induction false} ScanSnoc(msgs: seq<Json>, m: Json, k: nat)
    requires k <= |msgs|
    ensures Scan(msgs + [m], k) == if Scan(msgs, k).Some? then Scan(msgs, k) else Stop(m)
    decreases |msgs| - k
  {
    var all := msgs + [m];
    assert all[k] == if k < |msgs| then msgs[k] else m;
    if k < |msgs| {
      ScanSnoc(msgs, m, k + 1);
    }
  }

  /** What the pairing has done after `msgs`: one entry per user message,
      holding its content and the trace its answers carried; only the last
      user message's search may still be open, and then it is the query
      waiting for a trace. */
  predicate PairingInv(msgs: seq<Json>) {
    var us := UserPositions(msgs);
    var p := Paired(msgs);
    && |Closed(p)| == |us|
    && (forall i :: 0 <= i < |us| ==> Closed(p)[i] == Entry(Content(msgs[us[i]]), TraceAfter(msgs, us[i] + 1)))
    && (forall i :: 0 <= i < |us| ==> (Scan(msgs, us[i] + 1).None? <==> i == |us| - 1 && p.pending.Some?))
  }

  /** The searches of the earlier user messages after one more message. */
  lemma ScansSnoc(init: seq<Json>, m: Json)
    ensures forall i :: 0 <= i < |UserPositions(init)| ==>
              var k := UserPositions(init)[i] + 1;
              Scan(init + [m], k) == if Scan(init, k).Some? then Scan(init, k) else Stop(m)
  {
    var us0 := UserPositions(init);
    forall i | 0 <= i < |us0|
      ensures Scan(init + [m], us0[i] + 1) == if Scan(init, us0[i] + 1).Some? then Scan(init, us0[i] + 1) else Stop(m)
    {
      ScanSnoc(init, m, us0[i] + 1);
    }
  }

  lemma PairingInvUser(init: seq<Json>, m: Json)
    requires PairingInv(init) && IsUser(m)
    ensures PairingInv(init + [m])
  {
    var msgs := init + [m];
    assert msgs[..|msgs| - 1] == init;
    ScansSnoc(init, m);
    var us0 := UserPositions(init);
    var us := us0 + [|init|];
    var es0 := Closed(Paired(init));
    var es := es0 + [Entry(Content(m), JNull)];
    assert UserPositions(msgs) == us;
    assert Closed(Paired(msgs)) == es && Paired(msgs).pending.Some?;
    forall i | 0 <= i < |us|
      ensures es[i] == Entry(Content(msgs[us[i]]), TraceAfter(msgs, us[i] + 1))
      ensures Scan(msgs, us[i] + 1).None? <==> i == |us| - 1
    {
      if i < |us0| {
        assert es[i] == es0[i] && us[i] == us0[i] && msgs[us0[i]] == init[us0[i]];
      } else {
        assert us[i] == |init| && es[i] == Entry(Content(m), JNull);
      }
    }
  }

  lemma PairingInvTrace(init: seq<Json>, m: Json)
    requires PairingInv(init) && !IsUser(m) && Stop(m).Some? && Paired(init).pending.Some?
    ensures PairingInv(init + [m])
  {
    var msgs := init + [m];
    assert msgs[..|msgs| - 1] == init;
    ScansSnoc(init, m);
    var us0 := UserPositions(init);
    assert forall i :: 0 <= i < |us0| ==> msgs[us0[i]] == init[us0[i]];
    assert UserPositions(msgs) == us0;
    var p := Paired(init);
    var es0 := Closed(p);
    var es := p.parsed + [p.pending.value.(trace := Stop(m).value)];
    assert es0 == p.parsed + [p.pending.value];
    assert Closed(Paired(msgs)) == es && Paired(msgs).pending.None?;
    forall i | 0 <= i < |us0|
      ensures es[i] == Entry(Content(msgs[us0[i]]), TraceAfter(msgs, us0[i] + 1))
      ensures Scan(msgs, us0[i] + 1).Some?
    {
      if i < |p.parsed| {
        assert es[i] == es0[i];
      } else {
        assert Scan(init, us0[i] + 1).None?;
      }
    }
  }

  lemma PairingInvSkip(init: seq<Json>, m: Json)
    requires PairingInv(init) && !IsUser(m) && (Stop(m).None? || Paired(init).pending.None?)
    ensures PairingInv(init + [m])
  {
    var msgs := init + [m];
    assert msgs[..|msgs| - 1] == init;
    ScansSnoc(init, m);
    var us0 := UserPositions(init);
    assert UserPositions(msgs) == us0;
    var p := Paired(init);
    assert Paired(msgs) == p;
    var es := Closed(p);
    forall i | 0 <= i < |us0|
      ensures es[i] == Entry(Content(msgs[us0[i]]), TraceAfter(msgs, us0[i] + 1))
      ensures Scan(msgs, us0[i] + 1).None? <==> i == |us0| - 1 && p.pending.Some?
    {
      assert msgs[us0[i]] == init[us0[i]];
    }
  }

  lemma {:induction false} PairingInvHolds(msgs: seq<Json>)
    ensures PairingInv(msgs)
  {
    if msgs != [] {
      var init := msgs[..|msgs| - 1];
      var m := msgs[|msgs| - 1];
      assert msgs == init + [m];
      PairingInvHolds(init);
      if IsUser(m) {
        PairingInvUser(init, m);
      } else if Stop(m).Some? && Paired(init).pending.Some? {
        PairingInvTrace(init, m);
      } else {
        PairingInvSkip(init, m);
      }
    }
  }

  /** The pairing gives the i-th user message, and only it, the trace its
      answers carry: the first truthy `rag_trace` of an assistant message
      after it and before the next user message, or none. */
  lemma PairedTraces(msgs: seq<Json>)
    ensures |Closed(Paired(msgs))| == |UserPositions(msgs)|
    ensures forall i :: 0 <= i < |UserPositions(msgs)| ==>
              Closed(Paired(msgs))[i]
              == Entry(Content(msgs[UserPositions(msgs)[i]]), TraceAfter(msgs, UserPositions(msgs)[i] + 1))
  {
    PairingInvHolds(msgs);
  }

  /** The list-comprehension filter of `load_trace`: entries whose query
      is blank go; None where a truthy query is not a string, which has no
      `strip`. */
  function Asked(es: seq<Entry>): (r: Option<seq<Entry>>)
    ensures r.Some? ==> |r.value| <= |es|
  {
    if es == [] then Some([])
    else
      match Asked(es[..|es| - 1])
      case None => None
      case Some(kept) =>
        var q := es[|es| - 1].query;
        if !Truthy(q) then Some(kept)
        else if !q.JStr? then None
        else if IsBlank(q.s) then Some(kept)
        else Some(kept + [es[|es| - 1]])
  }

  /** A query the filter keeps. */
  predicate NonBlank(q: Json) {
    q.JStr? && !IsBlank(q.s)
  }

  /** A query the filter raises on: truthy but not a string. A falsy one
      is replaced by "" and skipped. */
  predicate Raises(q: Json) {
    Truthy(q) && !q.JStr?
  }

  /** One entry: kept when its query is non-blank, skipped when it is blank
      or falsy, and the filter raises when it is truthy but not a string. */
  lemma AskedOne(e: Entry)
    ensures Asked([e]) == if Raises(e.query) then None else if NonBlank(e.query) then Some([e]) else Some([])
  {
    var es := [e];
    assert es[..|es| - 1] == [] && es[|es| - 1] == e;
    assert Asked(es[..|es| - 1]) == Some([]);
    assert [] + es == es;
  }

  /** The filter of two runs of entries is the filter of the first followed
      by that of the second, and raises when either does: with `AskedOne`
      this fixes the result, order and repetitions included. */
  lemma {:induction false} AskedAppend(a: seq<Entry>, b: seq<Entry>)
    ensures Asked(a + b) == if Asked(a).Some? && Asked(b).Some? then Some(Asked(a).value + Asked(b).value) else None
    decreases |b|
  {
    if b == [] {
      assert a + b == a;
      if Asked(a).Some? {
        assert Asked(a).value + [] == Asked(a).value;
      }
    } else {
      var ab := a + b;
      var b0 := b[..|b| - 1];
      assert ab[..|ab| - 1] == a + b0 && ab[|ab| - 1] == b[|b| - 1];
      AskedAppend(a, b0);
      assert b[..|b| - 1] == b0;
      if Asked(a).Some? && Asked(b0).Some? {
        var x := b[|b| - 1];
        var A, B0 := Asked(a).value, Asked(b0).value;
        assert A + (B0 + [x]) == A + B0 + [x];
      }
    }
  }

  /** The filter raises exactly when some truthy query is not a string. */
  lemma {:induction false} AskedNone(es: seq<Entry>)
    ensures Asked(es).None? <==> exists i :: 0 <= i < |es| && Raises(es[i].query)
  {
    if es != [] {
      var init := es[..|es| - 1];
      AskedNone(init);
      if Asked(init).None? {
        var i :| 0 <= i < |init| && Raises(init[i].query);
        assert es[i] == init[i];
      } else {
        forall i | 0 <= i < |init|
          ensures es[i] == init[i]
        {
        }
      }
    }
  }

  /** The filter keeps exactly the entries with a non-blank query. */
  lemma {:induction false} AskedMembers(es: seq<Entry>)
    requires Asked(es).Some?
    ensures forall e :: e in Asked(es).value <==> e in es && NonBlank(e.query)
  {
    if es != [] {
      var init := es[..|es| - 1];
      var last := es[|es| - 1];
      AskedMembers(init);
      assert es == init + [last];
      var kept := Asked(init).value;
      if Asked(es).value != kept {
        assert Asked(es).value == kept + [last];
      }
    }
  }

  /** The filter keeps the entries in their order. */
  lemma {:induction false} AskedOrder(es: seq<Entry>)
    requires Asked(es).Some?
    ensures forall i, j :: 0 <= i < j < |Asked(es).value| ==>
              exists a, b :: 0 <= a < b < |es| && es[a] == Asked(es).value[i] && es[b] == Asked(es).value[j]
  {
    if es != [] {
      var init := es[..|es| - 1];
      var last := es[|es| - 1];
      AskedOrder(init);
      AskedMembers(init);
      var kept := Asked(init).value;
      var r := Asked(es).value;
      forall i, j | 0 <= i < j < |r|
        ensures exists a, b :: 0 <= a < b < |es| && es[a] == r[i] && es[b] == r[j]
      {
        if j < |kept| {
          assert r[i] == kept[i] && r[j] == kept[j];
          var a, b :| 0 <= a < b < |init| && init[a] == kept[i] && init[b] == kept[j];
          assert es[a] == r[i] && es[b] == r[j];
        } else {
          assert r == kept + [last];
          assert r[i] == kept[i] && kept[i] in init;
          var a :| 0 <= a < |init| && init[a] == r[i];
          assert es[a] == r[i] && es[|es| - 1] == r[j];
        }
      }
    }
  }

  /** The filter keeps exactly the entries with a non-blank query, in their order. */
  lemma AskedKeeps(es: seq<Entry>)
    requires Asked(es).Some?
    ensures forall e :: e in Asked(es).value <==> e in es && NonBlank(e.query)
    ensures forall i, j :: 0 <= i < j < |Asked(es).value| ==>
              exists a, b :: 0 <= a < b < |es| && es[a] == Asked(es).value[i] && es[b] == Asked(es).value[j]
  {
    AskedMembers(es);
    AskedOrder(es);
  }

  /** `load_trace` up to filling the selector: the pairing loop, then the filter. */
  method LoadTrace(msgs: seq<Json>) returns (r: Option<seq<Entry>>)
    ensures r == Asked(Closed(Paired(msgs)))
  {
    var parsed: seq<Entry> := [];
    var pending: Option<Entry> := None;
    var i := 0;
    while i < |msgs|
      invariant 0 <= i <= |msgs|
      invariant Pairing(pending, parsed) == Paired(msgs[..i])
    {
      var msg := msgs[i];
      assert msgs[..i + 1][..i] == msgs[..i];
      if msg.JObject? {
        var role := GetOr(msg.fields, "role", JNull);
        if role == JStr("user") {
          if pending.Some? {
            parsed := parsed + [pending.value];
          }
          pending := Some(Entry(GetOr(msg.fields, "content", JStr("")), JNull));
        } else if role == JStr("assistant") {
          var trace := GetOr(msg.fields, "rag_trace", JNull);
          if pending.Some? && Truthy(trace) {
            parsed := parsed + [pending.value.(trace := trace)];
            pending := None;
          }
        }
      }
      i := i + 1;
    }
    assert msgs[..i] == msgs;
    ghost var closed := Closed(Paired(msgs));
    if pending.Some? {
      parsed := parsed + [pending.value];
    }
    assert parsed == closed;
    r := Asked(parsed);
  }

  /** One row of the session list. */
  datatype SessionData = SessionData(id: string, title: string, messages: seq<Json>, timestamp: string,
                                     confidence: real, status: string)

  const PendingLabel := "转人工"
  const ResolvedLabel := "已解决"
  const AllLabel := "全部"
  const NeutralConfidence := 0.5

  /** The confidences the assistant messages carry, in order. */
  function Confidences(ms: seq<Message>): seq<real> {
    if ms == [] then []
    else
      Confidences(ms[..|ms| - 1])
      + (var m := ms[|ms| - 1]; if m.role == "assistant" && m.confidence.Some? then [m.confidence.value] else [])
  }

  /** The session's confidence: the mean of the answers' confidences, or
      0.5 when no answer carries one. */
  function Mean(xs: seq<real>): real {
    if xs == [] then NeutralConfidence else Average(xs)
  }

  /** The list label of a conversation status: waiting for or with an
      agent shows as handed over, closed as resolved, anything else falls
      back to the label stored for the session. */
  function SessionStatus(status: string, stored: string): (tag: string)
    ensures status == PendingHuman || status == HumanHandling ==> tag == PendingLabel
    ensures status == HumanClosed ==> tag == ResolvedLabel
    ensures !(status in {PendingHuman, HumanHandling, HumanClosed}) ==> tag == stored
  {
    if status == PendingHuman || status == HumanHandling then PendingLabel
    else if status == HumanClosed then ResolvedLabel
    else stored
  }

  /** `_build_session_data`; `stored` is what `_load_session_status`
      reads for the conversation. */
  function SessionOf(c: Snapshot, stored: string): (r: Option<SessionData>)
    ensures r.None? <==> c.messages == []
    ensures r.Some? ==> r.value.id == c.id && r.value.timestamp == c.updatedAt
                        && r.value.status == SessionStatus(c.status, stored)
                        && r.value.confidence == Mean(Confidences(c.messages))
  {
    if c.messages == [] then None
    else
      Some(SessionData(c.id, c.title, MessagesToDicts(c.messages), c.updatedAt,
                       Mean(Confidences(c.messages)), SessionStatus(c.status, stored)))
  }

  /** The confidences come from the assistant messages only. */
  lemma {:induction false} ConfidencesFromAnswers(ms: seq<Message>)
    ensures forall x :: x in Confidences(ms) ==>
              exists i :: 0 <= i < |ms| && ms[i].role == "assistant" && ms[i].confidence == Some(x)
  {
    if ms != [] {
      var init := ms[..|ms| - 1];
      ConfidencesFromAnswers(init);
      forall x | x in Confidences(ms)
        ensures exists i :: 0 <= i < |ms| && ms[i].role == "assistant" && ms[i].confidence == Some(x)
      {
        if x in Confidences(init) {
          var i :| 0 <= i < |init| && init[i].role == "assistant" && init[i].confidence == Some(x);
          assert ms[i] == init[i];
        } else {
          assert ms[|ms| - 1].confidence == Some(x);
        }
      }
    }
  }

  /** A session's confidence stays in [0, 1] when every answer's does. */
  lemma SessionConfidenceBounded(c: Snapshot, stored: string)
    requires forall m :: m in c.messages && m.confidence.Some? ==> 0.0 <= m.confidence.value <= 1.0
    ensures SessionOf(c, stored).Some? ==> 0.0 <= SessionOf(c, stored).value.confidence <= 1.0
  {
    var xs := Confidences(c.messages);
    if xs != [] {
      ConfidencesFromAnswers(c.messages);
      forall i | 0 <= i < |xs| ensures 0.0 <= xs[i] <= 1.0 {
        assert xs[i] in xs;
      }
      AverageBounds(xs, 0.0, 1.0);
    }
  }

  /** `_refresh_list(filter_text)`: the rows shown, in order. */
  function Shown(sessions: seq<SessionData>, filter: string): (r: seq<SessionData>)
    ensures forall d :: d in r <==> d in sessions && (filter == AllLabel || d.status == filter)
    ensures filter == AllLabel ==> r == sessions
  {
    if sessions == [] then []
    else
      var init := Shown(sessions[..|sessions| - 1], filter);
      var d := sessions[|sessions| - 1];
      assert sessions == sessions[..|sessions| - 1] + [d];
      if filter == AllLabel || d.status == filter then init + [d] else init
  }

  /** Filtering commutes with concatenation, so rows keep their order. */
  lemma {:induction false} ShownAppend(a: seq<SessionData>, b: seq<SessionData>, filter: string)
    ensures Shown(a + b, filter) == Shown(a, filter) + Shown(b, filter)
    decreases |b|
  {
    if b != [] {
      assert (a + b)[..|a + b| - 1] == a + b[..|b| - 1];
      assert (a + b)[|a + b| - 1] == b[|b| - 1];
      ShownAppend(a, b[..|b| - 1], filter);
    } else {
      assert a + b == a;
    }
  }
}
