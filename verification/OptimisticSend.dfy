/** Optimistic sends of the team chat (frontend/components/chat/TeamChatRoom.tsx, handleSend). */
module OptimisticSend {
  import opened Options
  import opened ChatWindow

  datatype SendEvent =
    | Started(tempId: string, senderId: string, content: string)
    | Saved(tempId: string, saved: ChatMessage)
    | Failed(tempId: string)
    /** Someone else's message, accepted by the window. */
    | Incoming(message: ChatMessage)

  function Optimistic(tempId: string, senderId: string, content: string): ChatMessage {
    ChatMessage(tempId, Some(tempId), senderId, Some(content), true, false)
  }

  function MarkedFailed(m: ChatMessage): ChatMessage {
    m.(pending := false, failed := true)
  }

  /** `prev.map((m) => (m.tempId === tempId ? replacement(m) : m))`. */
  function Replace(messages: seq<ChatMessage>, tempId: string,
                   replacement: ChatMessage -> ChatMessage): (r: seq<ChatMessage>)
    ensures |r| == |messages|
    ensures forall i :: 0 <= i < |r| ==>
              r[i] == if messages[i].tempId == Some(tempId) then replacement(messages[i]) else messages[i]
  {
    seq(|messages|, i requires 0 <= i < |messages| =>
      if messages[i].tempId == Some(tempId) then replacement(messages[i]) else messages[i])
  }

  function WithSaved(messages: seq<ChatMessage>, tempId: string, saved: ChatMessage): seq<ChatMessage> {
    Replace(messages, tempId, _ => saved)
  }

  function WithFailed(messages: seq<ChatMessage>, tempId: string): seq<ChatMessage> {
    Replace(messages, tempId, MarkedFailed)
  }

  function Applied(messages: seq<ChatMessage>, e: SendEvent): seq<ChatMessage> {
    match e
    case Started(t, sender, content) => messages + [Optimistic(t, sender, content)]
    case Saved(t, saved) => WithSaved(messages, t, saved)
    case Failed(t) => WithFailed(messages, t)
    case Incoming(m) => messages + [m]
  }

  function Run(messages: seq<ChatMessage>, es: seq<SendEvent>): seq<ChatMessage> {
    if es == [] then messages else Applied(Run(messages, es[..|es| - 1]), es[|es| - 1])
  }

  // ── Well-formed interleavings ─────────────────────────────────────────────

  /** A message the server stored: it has no client-only fields. */
  ghost predicate Stored(m: ChatMessage) {
    m.tempId == None && !m.pending && !m.failed
  }

  predicate Resolves(e: SendEvent, tempId: string) {
    (e.Saved? || e.Failed?) && e.tempId == tempId
  }

  ghost predicate Resolved(es: seq<SendEvent>, tempId: string) {
    exists i :: 0 <= i < |es| && Resolves(es[i], tempId)
  }

  ghost predicate HasStarted(es: seq<SendEvent>, tempId: string) {
    exists i :: 0 <= i < |es| && es[i].Started? && es[i].tempId == tempId
  }

  /** Ids are fresh, every resolution belongs to a started send, and a send is resolved at most once. */
  ghost predicate WellFormed(es: seq<SendEvent>) {
    es == [] ||
    var front, e := es[..|es| - 1], es[|es| - 1];
    && WellFormed(front)
    && match e
       case Started(t, _, _) => !HasStarted(front, t)
       case Saved(t, saved) => HasStarted(front, t) && !Resolved(front, t) && Stored(saved)
       case Failed(t) => HasStarted(front, t) && !Resolved(front, t)
       case Incoming(m) => Stored(m)
  }

  // ── Reference: one row per send or message, in order, showing its own outcome ──

  function Outcome(row: ChatMessage, tempId: string, es: seq<SendEvent>): ChatMessage {
    if es == [] then row
    else
      var e := es[|es| - 1];
      if Resolves(e, tempId) then (if e.Saved? then e.saved else MarkedFailed(row))
      else Outcome(row, tempId, es[..|es| - 1])
  }

  /** The rows opened by `es`, each with the outcome `all` gives it. */
  function Rows(es: seq<SendEvent>, all: seq<SendEvent>): seq<ChatMessage> {
    if es == [] then []
    else
      var rows, e := Rows(es[..|es| - 1], all), es[|es| - 1];
      match e
      case Started(t, sender, content) => rows + [Outcome(Optimistic(t, sender, content), t, all)]
      case Incoming(m) => rows + [m]
      case _ => rows
  }

  /** A send resolves only after it started. */
  lemma {:induction false} ResolvedHasStarted(es: seq<SendEvent>, tempId: string)
    requires WellFormed(es) && Resolved(es, tempId)
    ensures HasStarted(es, tempId)
  {
    var front, e := es[..|es| - 1], es[|es| - 1];
    if !Resolves(e, tempId) {
      var i :| 0 <= i < |es| && Resolves(es[i], tempId);
      assert front[i] == es[i];
      ResolvedHasStarted(front, tempId);
    }
    var i :| 0 <= i < |front| && front[i].Started? && front[i].tempId == tempId;
    assert es[i] == front[i];
  }

  lemma {:induction false} UnresolvedOutcome(row: ChatMessage, tempId: string, es: seq<SendEvent>)
    requires !Resolved(es, tempId)
    ensures Outcome(row, tempId, es) == row
  {
    if es != [] {
      assert !Resolves(es[|es| - 1], tempId);
      assert forall i :: 0 <= i < |es| - 1 ==> es[..|es| - 1][i] == es[i];
      UnresolvedOutcome(row, tempId, es[..|es| - 1]);
    }
  }

  /** The outcome of a resolved send carries its temporary id only if the send failed. */
  lemma {:induction false} OutcomeTempId(row: ChatMessage, tempId: string, es: seq<SendEvent>)
    requires WellFormed(es) && row.tempId == Some(tempId)
    ensures var o := Outcome(row, tempId, es); o.tempId == None || o.tempId == Some(tempId)
  {
    if es != [] { OutcomeTempId(row, tempId, es[..|es| - 1]); }
  }

  function AfterEvent(row: ChatMessage, e: SendEvent): ChatMessage {
    if !(e.Saved? || e.Failed?) || row.tempId != Some(e.tempId) then row
    else if e.Saved? then e.saved
    else MarkedFailed(row)
  }

  /** One more event changes the rows of a prefix only where it resolves one of them. */
  lemma {:induction false} RowsExtend(es: seq<SendEvent>, all: seq<SendEvent>, e: SendEvent)
    requires WellFormed(es) && WellFormed(all + [e])
    ensures |Rows(es, all + [e])| == |Rows(es, all)|
    ensures forall i :: 0 <= i < |Rows(es, all)| ==> Rows(es, all + [e])[i] == AfterEvent(Rows(es, all)[i], e)
  {
    assert (all + [e])[..|all|] == all;
    if es != [] {
      var last := es[|es| - 1];
      RowsExtend(es[..|es| - 1], all, e);
      if last.Started? {
        var row := Optimistic(last.tempId, last.senderId, last.content);
        OutcomeTempId(row, last.tempId, all);
        if Resolves(e, last.tempId) {
          UnresolvedOutcome(row, last.tempId, all);
        }
      }
    }
  }

  /**
   * Under any interleaving of starts, successes, failures and incoming messages, the list is the history
   * followed by one row per send or message in the order they began, each showing its own outcome.
   */
  lemma {:induction false} RunIsOutcomes(history: seq<ChatMessage>, es: seq<SendEvent>)
    requires WellFormed(es) && forall i :: 0 <= i < |history| ==> Stored(history[i])
    ensures Run(history, es) == history + Rows(es, es)
  {
    if es != [] {
      var front, e := es[..|es| - 1], es[|es| - 1];
      assert es == front + [e];
      RunIsOutcomes(history, front);
      RowsExtend(front, front, e);
      if e.Started? {
        if Resolved(es, e.tempId) { ResolvedHasStarted(front, e.tempId) by { ResolvedInFront(es, e.tempId); } }
        UnresolvedOutcome(Optimistic(e.tempId, e.senderId, e.content), e.tempId, es);
      }
      assert Run(history, es) == history + Rows(es, es);
    }
  }

  // ── The rows, said without the functions that make them ───────────────────

  /** How many rows these events open: one for every send and one for every incoming message. */
  function Opened(es: seq<SendEvent>): nat {
    if es == [] then 0
    else Opened(es[..|es| - 1]) + (if es[|es| - 1].Started? || es[|es| - 1].Incoming? then 1 else 0)
  }

  /** The row of a send: its text under the temporary id, pending; the stored message; or its text marked failed. */
  ghost predicate ShowsSend(row: ChatMessage, tempId: string, senderId: string, content: string, es: seq<SendEvent>) {
    && (!Resolved(es, tempId) ==> row == ChatMessage(tempId, Some(tempId), senderId, Some(content), true, false))
    && (forall r :: 0 <= r < |es| && es[r].Saved? && es[r].tempId == tempId ==> row == es[r].saved)
    && (forall r :: 0 <= r < |es| && es[r].Failed? && es[r].tempId == tempId ==>
          row == ChatMessage(tempId, Some(tempId), senderId, Some(content), false, true))
  }

  lemma {:induction false} OutcomeShowsSend(tempId: string, senderId: string, content: string, es: seq<SendEvent>)
    requires WellFormed(es)
    ensures ShowsSend(Outcome(Optimistic(tempId, senderId, content), tempId, es), tempId, senderId, content, es)
  {
    if es != [] {
      var front, e := es[..|es| - 1], es[|es| - 1];
      var row := Outcome(Optimistic(tempId, senderId, content), tempId, es);
      OutcomeShowsSend(tempId, senderId, content, front);
      assert forall r :: 0 <= r < |front| ==> front[r] == es[r];
      if Resolves(e, tempId) {
        UnresolvedOutcome(Optimistic(tempId, senderId, content), tempId, front);
        assert forall r :: 0 <= r < |front| ==> !Resolves(es[r], tempId) by {
          assert forall r :: 0 <= r < |front| ==> !Resolves(front[r], tempId);
        }
      } else if Resolved(front, tempId) {
        var r :| 0 <= r < |front| && Resolves(front[r], tempId);
        assert Resolves(es[r], tempId);
      }
    }
  }

  lemma {:induction false} RowAt(es: seq<SendEvent>, all: seq<SendEvent>, j: nat)
    requires j < |es| && (es[j].Started? || es[j].Incoming?)
    ensures Opened(es[..j]) < |Rows(es, all)| == Opened(es)
    ensures Rows(es, all)[Opened(es[..j])] ==
            if es[j].Incoming? then es[j].message
            else Outcome(Optimistic(es[j].tempId, es[j].senderId, es[j].content), es[j].tempId, all)
  {
    var front := es[..|es| - 1];
    OpenedRows(front, all);
    OpenedRows(es, all);
    if j < |front| {
      RowAt(front, all, j);
      assert front[..j] == es[..j];
    }
  }

  lemma {:induction false} OpenedRows(es: seq<SendEvent>, all: seq<SendEvent>)
    ensures |Rows(es, all)| == Opened(es)
  {
    if es != [] { OpenedRows(es[..|es| - 1], all); }
  }

  /**
   * Every send has its own row, in the order of the starts and the arrivals: text and sender as typed,
   * pending until it is resolved, then the stored message or the text marked failed. Incoming messages
   * stand as they came, and there are no other rows.
   */
  lemma EachSendHasItsRow(history: seq<ChatMessage>, es: seq<SendEvent>, j: nat)
    requires WellFormed(es) && forall i :: 0 <= i < |history| ==> Stored(history[i])
    ensures |Run(history, es)| == |history| + Opened(es) && history <= Run(history, es)
    ensures j < |es| && es[j].Started? ==>
              && Opened(es[..j]) < Opened(es)
              && ShowsSend(Run(history, es)[|history| + Opened(es[..j])], es[j].tempId, es[j].senderId,
                           es[j].content, es)
    ensures j < |es| && es[j].Incoming? ==>
              Opened(es[..j]) < Opened(es) && Run(history, es)[|history| + Opened(es[..j])] == es[j].message
  {
    hide Run, Rows, Outcome, ShowsSend, WellFormed, Opened;
    RunIsOutcomes(history, es);
    OpenedRows(es, es);
    if j < |es| && (es[j].Started? || es[j].Incoming?) {
      RowAt(es, es, j);
      if es[j].Started? { OutcomeShowsSend(es[j].tempId, es[j].senderId, es[j].content, es); }
    }
  }

  lemma ResolvedInFront(es: seq<SendEvent>, tempId: string)
    requires es != [] && Resolved(es, tempId) && !Resolves(es[|es| - 1], tempId)
    ensures Resolved(es[..|es| - 1], tempId)
  {
    var i :| 0 <= i < |es| && Resolves(es[i], tempId);
    assert es[..|es| - 1][i] == es[i];
  }

  /** Once every started send is resolved, no row is pending. */
  lemma {:induction false} NothingPending(es: seq<SendEvent>, all: seq<SendEvent>)
    requires WellFormed(es) && WellFormed(all)
    requires forall i :: 0 <= i < |es| && es[i].Started? ==> Resolved(all, es[i].tempId)
    ensures forall i :: 0 <= i < |Rows(es, all)| ==> !Rows(es, all)[i].pending
  {
    if es != [] {
      var front, e := es[..|es| - 1], es[|es| - 1];
      assert forall i :: 0 <= i < |front| ==> front[i] == es[i];
      NothingPending(front, all);
      if e.Started? {
        ResolvedNotPending(Optimistic(e.tempId, e.senderId, e.content), e.tempId, all);
      }
    }
  }

  lemma {:induction false} ResolvedNotPending(row: ChatMessage, tempId: string, es: seq<SendEvent>)
    requires WellFormed(es) && Resolved(es, tempId)
    ensures !Outcome(row, tempId, es).pending
  {
    if !Resolves(es[|es| - 1], tempId) {
      ResolvedInFront(es, tempId);
      ResolvedNotPending(row, tempId, es[..|es| - 1]);
    }
  }

  /** The user never keeps a spinner: after all resolutions, nothing in the list is pending. */
  lemma AllResolvedNothingPending(history: seq<ChatMessage>, es: seq<SendEvent>)
    requires WellFormed(es) && forall i :: 0 <= i < |history| ==> Stored(history[i])
    requires forall i :: 0 <= i < |es| && es[i].Started? ==> Resolved(es, es[i].tempId)
    ensures forall i :: 0 <= i < |Run(history, es)| ==> !Run(history, es)[i].pending
  {
    RunIsOutcomes(history, es);
    NothingPending(es, es);
  }

  /** Resolutions of different sends commute, whatever the list. */
  lemma ResolutionsCommute(messages: seq<ChatMessage>, a: SendEvent, b: SendEvent)
    requires (a.Saved? && Stored(a.saved)) || a.Failed?
    requires (b.Saved? && Stored(b.saved)) || b.Failed?
    requires a.tempId != b.tempId
    ensures Applied(Applied(messages, a), b) == Applied(Applied(messages, b), a)
  {
    assert |Applied(Applied(messages, a), b)| == |Applied(Applied(messages, b), a)|;
  }

  /** A resolution keeps length, order and every row but the one of its own send. */
  lemma ResolutionIsLocal(history: seq<ChatMessage>, es: seq<SendEvent>)
    requires es != [] && WellFormed(es) && forall i :: 0 <= i < |history| ==> Stored(history[i])
    requires es[|es| - 1].Saved? || es[|es| - 1].Failed?
    ensures var before, after := Run(history, es[..|es| - 1]), Run(history, es);
            && |after| == |before|
            && exists k :: 0 <= k < |before| && before[k].tempId == Some(es[|es| - 1].tempId) && before[k].pending
                           && !after[k].pending
                           && forall i :: 0 <= i < |before| && i != k ==> after[i] == before[i]
  {
    var front, e := es[..|es| - 1], es[|es| - 1];
    RunIsOutcomes(history, front);
    var k := TheRow(front, front, e.tempId);
    var before := Run(history, front);
    assert before[|history| + k] == Rows(front, front)[k];
    forall i | 0 <= i < |before| && i != |history| + k ensures before[i].tempId != Some(e.tempId) {
      if i >= |history| { assert before[i] == Rows(front, front)[i - |history|]; }
    }
  }

  /** An unresolved send has exactly one row, still pending. */
  lemma {:induction false} TheRow(es: seq<SendEvent>, all: seq<SendEvent>, tempId: string) returns (k: int)
    requires WellFormed(es) && WellFormed(all) && !Resolved(all, tempId)
    ensures HasStarted(es, tempId) ==>
      0 <= k < |Rows(es, all)| && Rows(es, all)[k].tempId == Some(tempId) && Rows(es, all)[k].pending
    ensures HasStarted(es, tempId) ==>
              forall i :: 0 <= i < |Rows(es, all)| && i != k ==> Rows(es, all)[i].tempId != Some(tempId)
    ensures !HasStarted(es, tempId) ==> forall i :: 0 <= i < |Rows(es, all)| ==> Rows(es, all)[i].tempId != Some(tempId)
  {
    k := 0;
    if es != [] {
      var front, e := es[..|es| - 1], es[|es| - 1];
      k := TheRow(front, all, tempId);
      assert HasStarted(es, tempId) <==> HasStarted(front, tempId) || (e.Started? && e.tempId == tempId) by {
        if HasStarted(front, tempId) {
          var i :| 0 <= i < |front| && front[i].Started? && front[i].tempId == tempId;
          assert es[i] == front[i];
        }
      }
      if e.Started? {
        var row := Optimistic(e.tempId, e.senderId, e.content);
        OutcomeTempId(row, e.tempId, all);
        if e.tempId == tempId {
          UnresolvedOutcome(row, tempId, all);
          k := |Rows(front, all)|;
        }
      }
    }
  }
}
