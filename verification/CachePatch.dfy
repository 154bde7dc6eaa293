/** The cached sidebar lists and the three functions that patch them (frontend/lib/cachePatch.ts). */
module CachePatch {
  import opened Options
  import opened SocketEvents

  /** Query keys of the sidebar: the unified list, and one list per channel. */
  datatype QueryKey = Unified | ByChannel(channel: Channel)

  /** The lists fetched so far; a key that was never fetched is absent. */
  type Cache = map<QueryKey, seq<Conversation>>

  // ── Values ────────────────────────────────────────────────────────────────

  /** Index of the contact's first row, or -1. */
  function FindIndex(list: seq<Conversation>, id: ContactId): (idx: int)
    ensures idx == -1 || 0 <= idx < |list|
    ensures idx == -1 <==> forall i :: 0 <= i < |list| ==> list[i].contactId != id
    ensures idx != -1 ==> list[idx].contactId == id && forall i :: 0 <= i < idx ==> list[i].contactId != id
  {
    if list == [] then -1
    else if list[0].contactId == id then 0
    else
      var rest := FindIndex(list[1..], id);
      assert forall i :: 1 <= i < |list| ==> list[i] == list[1..][i - 1];
      if rest == -1 then -1 else rest + 1
  }

  /** The rows of every other contact, in their order. */
  function Others(list: seq<Conversation>, id: ContactId): seq<Conversation> {
    if list == [] then []
    else
      var kept := Others(list[..|list| - 1], id);
      if list[|list| - 1].contactId == id then kept else kept + [list[|list| - 1]]
  }

  function PatchRow(row: Conversation, preview: string, at: string, messageSeq: int, readSeq: int): Conversation {
    row.(lastMessagePreview := preview, lastMessageAt := at, lastMessageSeq := messageSeq, lastReadSeq := readSeq)
  }

  function UpdatedList(list: seq<Conversation>, p: UpdatedPayload): seq<Conversation> {
    var idx := FindIndex(list, p.contactId);
    if idx == -1 then list
    else [PatchRow(list[idx], p.lastMessagePreview, p.lastMessageAt, p.lastMessageSeq, p.lastReadSeq)]
         + Others(list, p.contactId)
  }

  function NewList(list: seq<Conversation>, p: NewPayload): seq<Conversation> {
    var idx := FindIndex(list, p.contactId);
    if idx == -1 then [ConversationFromNewPayload(p)] + list
    else [PatchRow(list[idx], p.lastMessagePreview, p.lastMessageAt, p.lastMessageSeq, p.lastReadSeq)]
         + Others(list, p.contactId)
  }

  function ReadList(list: seq<Conversation>, p: ReadPayload): seq<Conversation> {
    var idx := FindIndex(list, p.contactId);
    if idx == -1 then list else list[idx := list[idx].(lastReadSeq := p.lastReadSeq)]
  }

  /** The one list an event reorders; a read event reorders none. */
  function TargetKey(e: Payload): Option<QueryKey> {
    match e
    case Updated(p) => Some(ByChannel(p.lastMessageChannel))
    case New(p) => Some(ByChannel(p.channel.GetOr(WHATSAPP)))
    case Read(_) => None
  }

  /** What an event does to the list stored under `key`. */
  function PatchList(key: QueryKey, list: seq<Conversation>, e: Payload): seq<Conversation> {
    match e
    case Updated(p) => if TargetKey(e) == Some(key) then UpdatedList(list, p) else list
    case New(p) => if TargetKey(e) == Some(key) then NewList(list, p) else list
    case Read(p) => ReadList(list, p)
  }

  function Patch(cache: Cache, e: Payload): Cache {
    map key | key in cache :: PatchList(key, cache[key], e)
  }

  // ── What a patched row keeps ──────────────────────────────────────────────

  /** The fields of a row that no event writes. */
  predicate SameElsewhere(a: Conversation, b: Conversation) {
    && a.contactId == b.contactId && a.contactName == b.contactName
    && a.lastMessageChannel == b.lastMessageChannel && a.lastReadAt == b.lastReadAt
    && a.unreadCount == b.unreadCount && a.channels == b.channels
    && a.assignedToId == b.assignedToId && a.channelState == b.channelState
  }

  /** The row shows this message and these counters. */
  predicate Shows(row: Conversation, preview: string, at: string, messageSeq: int, readSeq: int) {
    && row.lastMessagePreview == preview && row.lastMessageAt == at
    && row.lastMessageSeq == messageSeq && row.lastReadSeq == readSeq
  }

  /** The row of a contact first seen in this event, as the sidebar first shows it. */
  predicate Introduces(row: Conversation, p: NewPayload) {
    && row.contactId == p.contactId && row.contactName == p.contactName
    && row.lastMessageChannel == p.lastMessageChannel
    && row.lastReadAt == None && row.assignedToId == None && row.channelState == None
    && row.channels == (if p.channel.Some? then [p.channel.value] else [])
    && row.unreadCount == (if p.lastMessageSeq < p.lastReadSeq then 0 else p.lastMessageSeq - p.lastReadSeq)
  }

  /** The contact's row moved to the front, showing this message and these counters; the others follow. */
  predicate Bumped(list: seq<Conversation>, after: seq<Conversation>, id: ContactId, preview: string, at: string,
                   messageSeq: int, readSeq: int)
  {
    var idx := FindIndex(list, id);
    && idx != -1 && |after| > 0 && after[1..] == Others(list, id)
    && SameElsewhere(after[0], list[idx]) && Shows(after[0], preview, at, messageSeq, readSeq)
  }

  /** A list that holds the contact is bumped, any other stays. */
  predicate IsUpdated(list: seq<Conversation>, after: seq<Conversation>, p: UpdatedPayload) {
    if FindIndex(list, p.contactId) == -1 then after == list
    else Bumped(list, after, p.contactId, p.lastMessagePreview, p.lastMessageAt, p.lastMessageSeq, p.lastReadSeq)
  }

  /** A list that holds the contact is bumped, any other gets its row in front. */
  predicate IsInserted(list: seq<Conversation>, after: seq<Conversation>, p: NewPayload) {
    if FindIndex(list, p.contactId) == -1 then
      && |after| > 0 && after[1..] == list && Introduces(after[0], p)
      && Shows(after[0], p.lastMessagePreview, p.lastMessageAt, p.lastMessageSeq, p.lastReadSeq)
    else Bumped(list, after, p.contactId, p.lastMessagePreview, p.lastMessageAt, p.lastMessageSeq, p.lastReadSeq)
  }

  /** The contact's row in place with the watermark, every other row as it was. */
  predicate IsRead(list: seq<Conversation>, after: seq<Conversation>, p: ReadPayload) {
    var idx := FindIndex(list, p.contactId);
    && |after| == |list|
    && (forall i :: 0 <= i < |list| && i != idx ==> after[i] == list[i])
    && (idx != -1 ==>
          && SameElsewhere(after[idx], list[idx])
          && Shows(after[idx], list[idx].lastMessagePreview, list[idx].lastMessageAt, list[idx].lastMessageSeq,
                   p.lastReadSeq))
  }

  lemma UpdatedListIsUpdated(list: seq<Conversation>, p: UpdatedPayload)
    ensures IsUpdated(list, UpdatedList(list, p), p)
  {
    hide FindIndex, Others;
  }

  lemma NewListIsInserted(list: seq<Conversation>, p: NewPayload)
    ensures IsInserted(list, NewList(list, p), p)
  {
    hide FindIndex, Others;
  }

  lemma ReadListIsRead(list: seq<Conversation>, p: ReadPayload)
    ensures IsRead(list, ReadList(list, p), p)
  {
    hide FindIndex;
  }

  /** All lists but this one stay as they were. */
  predicate OthersUntouched(before: Cache, after: Cache, key: QueryKey) {
    after.Keys == before.Keys && forall other :: other in before && other != key ==> after[other] == before[other]
  }

  // ── The mutable cache ─────────────────────────────────────────────────────

  class QueryCache {
    var lists: Cache

    constructor (initial: Cache)
      ensures lists == initial
    {
      lists := initial;
    }

    method ApplyConversationUpdate(payload: UpdatedPayload)
      modifies this
      ensures lists == Patch(old(lists), Updated(payload))
      ensures OthersUntouched(old(lists), lists, ByChannel(payload.lastMessageChannel))
      ensures var key := ByChannel(payload.lastMessageChannel);
              key in old(lists) ==> IsUpdated(old(lists)[key], lists[key], payload)
    {
      hide FindIndex, Others, PatchRow, IsUpdated;
      var key := ByChannel(payload.lastMessageChannel);
      if key !in lists { return; }
      var oldList := lists[key];
      UpdatedListIsUpdated(oldList, payload);
      var idx := FindIndex(oldList, payload.contactId);
      if idx == -1 { return; }
      var updated := PatchRow(oldList[idx], payload.lastMessagePreview, payload.lastMessageAt,
                              payload.lastMessageSeq, payload.lastReadSeq);
      lists := lists[key := [updated] + Others(oldList, payload.contactId)];
    }

    method InsertNewConversation(payload: NewPayload)
      modifies this
      ensures lists == Patch(old(lists), New(payload))
      ensures var key := ByChannel(if payload.channel.Some? then payload.channel.value else WHATSAPP);
              && OthersUntouched(old(lists), lists, key)
              && (key in old(lists) ==> IsInserted(old(lists)[key], lists[key], payload))
    {
      hide FindIndex, Others, PatchRow, ConversationFromNewPayload, IsInserted;
      var key := ByChannel(payload.channel.GetOr(WHATSAPP));
      if key !in lists { return; }
      var oldList := lists[key];
      NewListIsInserted(oldList, payload);
      var idx := FindIndex(oldList, payload.contactId);
      if idx != -1 {
        var updated := PatchRow(oldList[idx], payload.lastMessagePreview, payload.lastMessageAt,
                                payload.lastMessageSeq, payload.lastReadSeq);
        lists := lists[key := [updated] + Others(oldList, payload.contactId)];
        return;
      }
      lists := lists[key := [ConversationFromNewPayload(payload)] + oldList];
    }

    method ApplyReadUpdate(payload: ReadPayload)
      modifies this
      ensures lists == Patch(old(lists), Read(payload))
      ensures lists.Keys == old(lists).Keys
      ensures forall key :: key in lists ==> IsRead(old(lists)[key], lists[key], payload)
    {
      hide FindIndex, ReadList, IsRead;
      forall key | key in lists ensures IsRead(lists[key], ReadList(lists[key], payload), payload) {
        ReadListIsRead(lists[key], payload);
      }
      lists := map key | key in lists :: ReadList(lists[key], payload);
    }
  }

  // ── One event ─────────────────────────────────────────────────────────────

  /** The part of a row that events overwrite. */
  datatype Face = Face(preview: string, at: string, messageSeq: int, readSeq: int)

  function FaceOf(row: Conversation): Face {
    Face(row.lastMessagePreview, row.lastMessageAt, row.lastMessageSeq, row.lastReadSeq)
  }

  ghost predicate Unique(list: seq<Conversation>) {
    forall i, j :: 0 <= i < j < |list| ==> list[i].contactId != list[j].contactId
  }

  ghost predicate HasContact(list: seq<Conversation>, id: ContactId) {
    exists i :: 0 <= i < |list| && list[i].contactId == id
  }

  /** The positions `Others` keeps. */
  ghost function Kept(list: seq<Conversation>, id: ContactId): (source: seq<int>)
    ensures forall i :: 0 <= i < |source| ==> 0 <= source[i] < |list|
  {
    if list == [] then []
    else
      var kept := Kept(list[..|list| - 1], id);
      if list[|list| - 1].contactId == id then kept else kept + [|list| - 1]
  }

  /** `Others` keeps exactly the other contacts' rows, in their relative order. */
  lemma {:induction false} OthersKeepsOrder(list: seq<Conversation>, id: ContactId)
    ensures var source := Kept(list, id);
            && |source| == |Others(list, id)|
            && (forall i :: 0 <= i < |source| ==> Others(list, id)[i] == list[source[i]])
            && (forall i :: 0 <= i < |source| ==> list[source[i]].contactId != id)
            && (forall i, j :: 0 <= i < j < |source| ==> source[i] < source[j])
  {
    if list != [] {
      OthersKeepsOrder(list[..|list| - 1], id);
    }
  }

  /** The row of another contact is kept. */
  lemma {:induction false} OthersComplete(list: seq<Conversation>, id: ContactId, j: int) returns (i: int)
    requires 0 <= j < |list| && list[j].contactId != id
    ensures 0 <= i < |Kept(list, id)| && Kept(list, id)[i] == j
  {
    if j == |list| - 1 {
      i := |Kept(list, id)| - 1;
    } else {
      i := OthersComplete(list[..|list| - 1], id, j);
    }
  }

  /** Where a row of the patched list comes from, and what it now shows. */
  ghost predicate RowOrigin(key: QueryKey, list: seq<Conversation>, e: Payload, row: Conversation) {
    if row.contactId != e.Contact() then row in list
    else match e {
      case Updated(p) =>
        if TargetKey(e) == Some(key)
        then FaceOf(row) == Face(p.lastMessagePreview, p.lastMessageAt, p.lastMessageSeq, p.lastReadSeq)
        else row in list
      case New(p) =>
        if TargetKey(e) == Some(key)
        then FaceOf(row) == Face(p.lastMessagePreview, p.lastMessageAt, p.lastMessageSeq, p.lastReadSeq)
        else row in list
      case Read(p) =>
        exists before :: before in list && row == before.(lastReadSeq := p.lastReadSeq)
    }
  }

  /** Every row after an event either was there before or shows what the event carries. */
  lemma PatchedRows(key: QueryKey, list: seq<Conversation>, e: Payload)
    requires Unique(list)
    ensures forall row :: row in PatchList(key, list, e) ==> RowOrigin(key, list, e, row)
  {
    var after := PatchList(key, list, e);
    OthersKeepsOrder(list, e.Contact());
    forall row | row in after ensures RowOrigin(key, list, e, row) {
      if e.Read? && row.contactId == e.Contact() {
        var idx := FindIndex(list, e.Contact());
        var i :| 0 <= i < |after| && after[i] == row;
        assert i == idx;
        assert list[idx] in list;
      }
    }
  }

  /** No event makes a contact appear twice. */
  lemma PatchedUnique(key: QueryKey, list: seq<Conversation>, e: Payload)
    requires Unique(list)
    ensures Unique(PatchList(key, list, e))
  {
    var idx := FindIndex(list, e.Contact());
    if e.Read? || TargetKey(e) != Some(key) {
      var after := PatchList(key, list, e);
      assert forall i :: 0 <= i < |after| ==> after[i].contactId == list[i].contactId;
    } else if idx != -1 {
      FrontOfOthersUnique(list, PatchList(key, list, e)[0]);
    }
  }

  lemma FrontOfOthersUnique(list: seq<Conversation>, row: Conversation)
    requires Unique(list)
    ensures Unique([row] + Others(list, row.contactId))
  {
    OthersKeepsOrder(list, row.contactId);
  }

  /** An event never removes a contact, and only a new-conversation event adds one. */
  lemma PatchedContacts(key: QueryKey, list: seq<Conversation>, e: Payload, id: ContactId)
    ensures HasContact(PatchList(key, list, e), id) <==>
              HasContact(list, id) || (e.New? && TargetKey(e) == Some(key) && e.Contact() == id)
  {
    if TargetKey(e) == Some(key) {
      BumpedContacts(key, list, e, id);
    } else if e.Read? {
      var after := PatchList(key, list, e);
      assert |after| == |list| && forall i :: 0 <= i < |list| ==> after[i].contactId == list[i].contactId;
      assert HasContact(list, id) ==> HasContact(after, id) by {
        if HasContact(list, id) {
          var i :| 0 <= i < |list| && list[i].contactId == id;
          assert after[i].contactId == id;
        }
      }
    }
  }

  lemma BumpedContacts(key: QueryKey, list: seq<Conversation>, e: Payload, id: ContactId)
    requires TargetKey(e) == Some(key)
    ensures HasContact(PatchList(key, list, e), id) <==> HasContact(list, id) || (e.New? && e.Contact() == id)
  {
    var after := PatchList(key, list, e);
    var idx := FindIndex(list, e.Contact());
    if idx == -1 {
      if e.New? { FrontRow(ConversationFromNewPayload(e.created), list, id); }
    } else {
      assert after == [after[0]] + Others(list, e.Contact()) && after[0].contactId == e.Contact();
      assert HasContact(list, e.Contact());
      hide PatchList, Others;
      FrontRow(after[0], Others(list, e.Contact()), id);
      if id != e.Contact() {
        OthersHold(list, e.Contact(), id);
        OthersHeld(list, e.Contact(), id);
      }
    }
  }

  lemma FrontRow(row: Conversation, rest: seq<Conversation>, id: ContactId)
    ensures HasContact([row] + rest, id) <==> row.contactId == id || HasContact(rest, id)
  {
    var all := [row] + rest;
    if HasContact(rest, id) {
      var i :| 0 <= i < |rest| && rest[i].contactId == id;
      assert all[i + 1].contactId == id;
    }
    if HasContact(all, id) {
      var i :| 0 <= i < |all| && all[i].contactId == id;
      assert i > 0 ==> rest[i - 1].contactId == id;
    }
    assert all[0] == row;
  }

  /** Every other contact's row is among the others. */
  lemma OthersHold(list: seq<Conversation>, away: ContactId, id: ContactId)
    requires id != away
    ensures HasContact(list, id) ==> HasContact(Others(list, away), id)
  {
    if HasContact(list, id) {
      var i :| 0 <= i < |list| && list[i].contactId == id;
      OthersKeepsOrder(list, away);
      var j := OthersComplete(list, away, i);
      assert Others(list, away)[j].contactId == id;
    }
  }

  /** And nothing else is. */
  lemma OthersHeld(list: seq<Conversation>, away: ContactId, id: ContactId)
    ensures HasContact(Others(list, away), id) ==> HasContact(list, id)
  {
    if HasContact(Others(list, away), id) {
      OthersKeepsOrder(list, away);
      var j :| 0 <= j < |Others(list, away)| && Others(list, away)[j].contactId == id;
      assert list[Kept(list, away)[j]].contactId == id;
    }
  }
}
