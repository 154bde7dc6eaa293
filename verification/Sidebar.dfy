/** The order and the contents of a sidebar list after any run of socket events. */
module Sidebar {
  import opened Options
  import opened SocketEvents
  import opened CachePatch

  function RunList(key: QueryKey, list: seq<Conversation>, es: seq<Payload>): seq<Conversation> {
    if es == [] then list
    else PatchList(key, RunList(key, list, es[..|es| - 1]), es[|es| - 1])
  }

  function Run(cache: Cache, es: seq<Payload>): Cache {
    if es == [] then cache else Patch(Run(cache, es[..|es| - 1]), es[|es| - 1])
  }

  /** The lists of the cache evolve independently of one another, and none appears or disappears. */
  lemma {:induction false} ListsAreIndependent(cache: Cache, es: seq<Payload>)
    ensures Run(cache, es).Keys == cache.Keys
    ensures forall key :: key in cache ==> Run(cache, es)[key] == RunList(key, cache[key], es)
  {
    if es != [] {
      ListsAreIndependent(cache, es[..|es| - 1]);
    }
  }

  // ── Reference definitions, stated on the events alone ─────────────────────

  /** The contact has a row: it was fetched, or a new-conversation event for this list inserted it. */
  ghost predicate Present(key: QueryKey, list: seq<Conversation>, es: seq<Payload>, id: ContactId) {
    HasContact(list, id) ||
    exists i :: 0 <= i < |es| && es[i].New? && TargetKey(es[i]) == Some(key) && es[i].Contact() == id
  }

  /** The last event of the run moves this contact's row to the top. */
  ghost predicate LastBumps(key: QueryKey, list: seq<Conversation>, es: seq<Payload>, id: ContactId)
    requires es != []
  {
    var e := es[|es| - 1];
    TargetKey(e) == Some(key) && e.Contact() == id && (e.New? || Present(key, list, es[..|es| - 1], id))
  }

  /** Position of the latest event that bumped the contact, -1 when none did. */
  ghost function LastBump(key: QueryKey, list: seq<Conversation>, es: seq<Payload>, id: ContactId): (at: int)
    ensures -1 <= at < |es|
  {
    if es == [] then -1
    else if LastBumps(key, list, es, id) then |es| - 1
    else LastBump(key, list, es[..|es| - 1], id)
  }

  /** `a` stands above `b`: bumped later, or neither was bumped and `a` was fetched above `b`. */
  ghost predicate Above(key: QueryKey, list: seq<Conversation>, es: seq<Payload>, a: ContactId, b: ContactId) {
    var bumpA, bumpB := LastBump(key, list, es, a), LastBump(key, list, es, b);
    bumpA > bumpB || (bumpA == bumpB == -1 && FindIndex(list, a) < FindIndex(list, b))
  }

  ghost predicate OrderedByBump(key: QueryKey, list: seq<Conversation>, es: seq<Payload>, rows: seq<Conversation>) {
    forall i, j :: 0 <= i < j < |rows| ==> Above(key, list, es, rows[i].contactId, rows[j].contactId)
  }

  // ── Order ─────────────────────────────────────────────────────────────────

  /** Contacts never leave a list, and enter it only through a new-conversation event. */
  lemma {:induction false} ContactsOfRun(key: QueryKey, list: seq<Conversation>, es: seq<Payload>, id: ContactId)
    ensures HasContact(RunList(key, list, es), id) <==> Present(key, list, es, id)
  {
    if es != [] {
      var front, e := es[..|es| - 1], es[|es| - 1];
      ContactsOfRun(key, list, front, id);
      PatchedContacts(key, RunList(key, list, front), e, id);
      assert forall i :: 0 <= i < |front| ==> es[i] == front[i];
    }
  }

  lemma {:induction false} UniqueRun(key: QueryKey, list: seq<Conversation>, es: seq<Payload>)
    requires Unique(list)
    ensures Unique(RunList(key, list, es))
  {
    if es != [] {
      UniqueRun(key, list, es[..|es| - 1]);
      PatchedUnique(key, RunList(key, list, es[..|es| - 1]), es[|es| - 1]);
    }
  }

  /** The fetched order is the base case: rows with distinct contacts are found where they stand. */
  lemma FoundInPlace(list: seq<Conversation>, i: int)
    requires Unique(list) && 0 <= i < |list|
    ensures FindIndex(list, list[i].contactId) == i
  {
    var idx := FindIndex(list, list[i].contactId);
    assert list[i].contactId == list[idx].contactId;
  }

  /** An event that does not bump leaves the sequence of contacts alone. */
  lemma NoBumpKeepsOrder(key: QueryKey, rows: seq<Conversation>, e: Payload)
    requires TargetKey(e) != Some(key) || (e.Updated? && !HasContact(rows, e.Contact()))
    ensures |PatchList(key, rows, e)| == |rows|
    ensures forall i :: 0 <= i < |rows| ==> PatchList(key, rows, e)[i].contactId == rows[i].contactId
  {
  }

  /** The bumped contact is above every other; the others keep their order. */
  lemma BumpedPair(key: QueryKey, list: seq<Conversation>, es: seq<Payload>, a: ContactId, b: ContactId)
    requires es != [] && b != es[|es| - 1].Contact()
    requires LastBumps(key, list, es, es[|es| - 1].Contact())
    requires a == es[|es| - 1].Contact() || Above(key, list, es[..|es| - 1], a, b)
    ensures Above(key, list, es, a, b)
  {
  }

  /** `after` is a row of the contact followed by the rows at `source` in `before`. */
  ghost predicate FrontThen(before: seq<Conversation>, after: seq<Conversation>, id: ContactId, source: seq<int>) {
    && |after| == |source| + 1 && after[0].contactId == id
    && (forall i :: 0 <= i < |source| ==>
          0 <= source[i] < |before| && after[i + 1].contactId == before[source[i]].contactId
            && before[source[i]].contactId != id)
    && (forall i, j :: 0 <= i < j < |source| ==> source[i] < source[j])
  }

  ghost function UpTo(n: nat): (s: seq<int>)
    ensures |s| == n && forall i :: 0 <= i < n ==> s[i] == i
  {
    seq(n, i => i)
  }

  lemma InsertedInFront(before: seq<Conversation>, row: Conversation)
    requires FindIndex(before, row.contactId) == -1
    ensures FrontThen(before, [row] + before, row.contactId, UpTo(|before|))
  {
    hide FindIndex, UpTo;
    var after, source := [row] + before, UpTo(|before|);
    forall i | 0 <= i < |source|
      ensures 0 <= source[i] < |before| && after[i + 1].contactId == before[source[i]].contactId
      ensures before[source[i]].contactId != row.contactId
    {
      assert source[i] == i && after[i + 1] == before[i];
    }
  }

  lemma MovedToFront(before: seq<Conversation>, row: Conversation)
    ensures FrontThen(before, [row] + Others(before, row.contactId), row.contactId, Kept(before, row.contactId))
  {
    OthersKeepsOrder(before, row.contactId);
  }

  /** The rows after a bump: the bumped contact, then the other rows in their order. */
  lemma BumpedRows(key: QueryKey, before: seq<Conversation>, e: Payload) returns (source: seq<int>)
    requires TargetKey(e) == Some(key) && (e.New? || HasContact(before, e.Contact()))
    ensures FrontThen(before, PatchList(key, before, e), e.Contact(), source)
  {
    if FindIndex(before, e.Contact()) == -1 {
      source := UpTo(|before|);
      InsertedInFront(before, ConversationFromNewPayload(e.created));
    } else {
      source := Kept(before, e.Contact());
      MovedToFront(before, PatchList(key, before, e)[0]);
    }
  }

  /** A bump puts the contact first and shifts the others down in their order. */
  lemma BumpMovesToFront(key: QueryKey, list: seq<Conversation>, es: seq<Payload>)
    requires es != [] && Unique(list)
    requires OrderedByBump(key, list, es[..|es| - 1], RunList(key, list, es[..|es| - 1]))
    requires LastBumps(key, list, es, es[|es| - 1].Contact())
    ensures OrderedByBump(key, list, es, RunList(key, list, es))
  {
    var front, e := es[..|es| - 1], es[|es| - 1];
    var before, after := RunList(key, list, front), RunList(key, list, es);
    ContactsOfRun(key, list, front, e.Contact());
    var source := BumpedRows(key, before, e);
    forall i, j | 0 <= i < j < |after| ensures Above(key, list, es, after[i].contactId, after[j].contactId) {
      var b := before[source[j - 1]].contactId;
      assert after[j].contactId == b;
      if i > 0 {
        assert source[i - 1] < source[j - 1];
        var a := before[source[i - 1]].contactId;
        assert after[i].contactId == a;
        assert Above(key, list, front, a, b);
      }
      BumpedPair(key, list, es, after[i].contactId, b);
    }
  }

  /**
   * Sidebar order is exactly move-to-front. After any run of events a list still has one row per
   * contact, holds exactly the fetched and the inserted contacts, and lists them by latest bump,
   * the never-bumped rows following in the order they were fetched.
   */
  lemma {:induction false} MoveToFront(key: QueryKey, list: seq<Conversation>, es: seq<Payload>)
    requires Unique(list)
    ensures Unique(RunList(key, list, es))
    ensures forall id :: HasContact(RunList(key, list, es), id) <==> Present(key, list, es, id)
    ensures OrderedByBump(key, list, es, RunList(key, list, es))
  {
    UniqueRun(key, list, es);
    forall id ensures HasContact(RunList(key, list, es), id) <==> Present(key, list, es, id) {
      ContactsOfRun(key, list, es, id);
    }
    if es == [] {
      forall i | 0 <= i < |list| ensures FindIndex(list, list[i].contactId) == i { FoundInPlace(list, i); }
    } else {
      var front, e := es[..|es| - 1], es[|es| - 1];
      MoveToFront(key, list, front);
      if LastBumps(key, list, es, e.Contact()) {
        BumpMovesToFront(key, list, es);
      } else {
        var before := RunList(key, list, front);
        ContactsOfRun(key, list, front, e.Contact());
        NoBumpKeepsOrder(key, before, e);
        forall i, j | 0 <= i < j < |before|
          ensures Above(key, list, es, RunList(key, list, es)[i].contactId, RunList(key, list, es)[j].contactId)
        {
          assert Above(key, list, front, before[i].contactId, before[j].contactId);
        }
      }
    }
  }

  // ── Contents ──────────────────────────────────────────────────────────────

  /** What the contact's row must show: preview, time and counters of the last events that wrote them. */
  ghost function LastWritten(key: QueryKey, list: seq<Conversation>, es: seq<Payload>, id: ContactId): Face {
    if es == [] then
      var idx := FindIndex(list, id);
      if idx == -1 then Face("", "", 0, 0) else FaceOf(list[idx])
    else
      var e := es[|es| - 1];
      var before := LastWritten(key, list, es[..|es| - 1], id);
      if e.Contact() != id then before
      else match e
        case Updated(p) =>
          if TargetKey(e) != Some(key) then before
          else Face(p.lastMessagePreview, p.lastMessageAt, p.lastMessageSeq, p.lastReadSeq)
        case New(p) =>
          if TargetKey(e) != Some(key) then before
          else Face(p.lastMessagePreview, p.lastMessageAt, p.lastMessageSeq, p.lastReadSeq)
        case Read(p) => before.(readSeq := p.lastReadSeq)
  }

  /** Every row shows what the last events that wrote to it carried, so the badge is theirs too. */
  lemma {:induction false} LastWriterWins(key: QueryKey, list: seq<Conversation>, es: seq<Payload>, row: Conversation)
    requires Unique(list) && row in RunList(key, list, es)
    ensures FaceOf(row) == LastWritten(key, list, es, row.contactId)
  {
    if es == [] {
      var i :| 0 <= i < |list| && list[i] == row;
      FoundInPlace(list, i);
    } else {
      var front, e := es[..|es| - 1], es[|es| - 1];
      var before := RunList(key, list, front);
      UniqueRun(key, list, front);
      PatchedRows(key, before, e);
      if row.contactId == e.Contact() && e.Read? {
        var prior :| prior in before && row == prior.(lastReadSeq := e.read.lastReadSeq);
        LastWriterWins(key, list, front, prior);
      } else if row in before {
        if row.contactId != e.Contact() || TargetKey(e) != Some(key) {
          LastWriterWins(key, list, front, row);
        }
      }
    }
  }

  /** A new-conversation event of the contact that goes to this list. */
  predicate Opens(key: QueryKey, e: Payload, id: ContactId) {
    && e.New? && e.created.contactId == id
    && key == ByChannel(if e.created.channel.Some? then e.created.channel.value else WHATSAPP)
  }

  /** Event i is the first of the run to open the contact's conversation in this list. */
  ghost predicate OpensFirst(key: QueryKey, es: seq<Payload>, id: ContactId, i: int) {
    0 <= i < |es| && Opens(key, es[i], id) && forall j :: 0 <= j < i ==> !Opens(key, es[j], id)
  }

  lemma BumpedRowKeeps(list: seq<Conversation>, after: seq<Conversation>, id: ContactId, row: Conversation)
    returns (prior: Conversation)
    requires FindIndex(list, id) != -1 && |after| > 0 && after[1..] == Others(list, id) && row in after
    requires SameElsewhere(after[0], list[FindIndex(list, id)])
    ensures prior in list && SameElsewhere(row, prior)
  {
    if row == after[0] {
      prior := list[FindIndex(list, id)];
    } else {
      OthersKeepsOrder(list, id);
      var i :| 0 <= i < |after| && after[i] == row;
      assert Others(list, id)[i - 1] == row;
      prior := row;
    }
  }

  /** One event: the row is that of a row before it outside what events write, or the event brought it. */
  lemma PatchedRowKeeps(key: QueryKey, before: seq<Conversation>, e: Payload, row: Conversation)
    returns (prior: Conversation)
    requires row in PatchList(key, before, e)
    ensures || (prior in before && SameElsewhere(row, prior))
            || (Opens(key, e, row.contactId) && !HasContact(before, row.contactId) && Introduces(row, e.created))
  {
    hide FindIndex, Others, ReadList, UpdatedList, NewList, Shows;
    prior := row;
    var after, idx := PatchList(key, before, e), FindIndex(before, e.Contact());
    if row in before {
      assert SameElsewhere(row, prior);
    } else {
      match e
      case Updated(p) =>
        UpdatedListIsUpdated(before, p);
        prior := BumpedRowKeeps(before, after, p.contactId, row);
      case New(p) =>
        NewListIsInserted(before, p);
        if idx != -1 {
          prior := BumpedRowKeeps(before, after, p.contactId, row);
        } else {
          assert row == after[0];
        }
      case Read(p) =>
        ReadListIsRead(before, p);
        var i :| 0 <= i < |after| && after[i] == row;
        assert i == idx;
        prior := before[idx];
    }
  }

  /** The identity of a row, on any run: as fetched, or as its first new-conversation event introduced it. */
  ghost predicate KeepsIdentity(key: QueryKey, list: seq<Conversation>, es: seq<Payload>, row: Conversation) {
    if HasContact(list, row.contactId) then exists fetched :: fetched in list && SameElsewhere(row, fetched)
    else exists i :: OpensFirst(key, es, row.contactId, i) && Introduces(row, es[i].created)
  }

  lemma IdentityExtends(key: QueryKey, list: seq<Conversation>, es: seq<Payload>, prior: Conversation,
                        row: Conversation)
    requires es != [] && KeepsIdentity(key, list, es[..|es| - 1], prior) && SameElsewhere(row, prior)
    ensures KeepsIdentity(key, list, es, row)
  {
    if HasContact(list, row.contactId) {
      var fetched :| fetched in list && SameElsewhere(prior, fetched);
      assert SameElsewhere(row, fetched);
    } else {
      var front := es[..|es| - 1];
      var i :| OpensFirst(key, front, prior.contactId, i) && Introduces(prior, front[i].created);
      assert OpensFirst(key, es, row.contactId, i) && Introduces(row, es[i].created);
    }
  }

  /**
   * Whatever the events, a fetched contact's row equals its fetched row in every field but the preview,
   * the time and the two counters; and an inserted contact's row carries the name, the channels and the
   * unread count of the first new-conversation event that brought the contact to this list.
   */
  lemma {:induction false} RowsKeepIdentity(key: QueryKey, list: seq<Conversation>, es: seq<Payload>,
                                            row: Conversation)
    requires row in RunList(key, list, es)
    ensures KeepsIdentity(key, list, es, row)
  {
    if es == [] {
      assert SameElsewhere(row, row);
      var i :| 0 <= i < |list| && list[i] == row;
      assert HasContact(list, row.contactId);
    } else {
      var front, e := es[..|es| - 1], es[|es| - 1];
      var before := RunList(key, list, front);
      var prior := PatchedRowKeeps(key, before, e, row);
      if prior in before && SameElsewhere(row, prior) {
        RowsKeepIdentity(key, list, front, prior);
        IdentityExtends(key, list, es, prior, row);
      } else {
        ContactsOfRun(key, list, front, row.contactId);
        NotOpenedYet(key, front, row.contactId);
        assert OpensFirst(key, es, row.contactId, |es| - 1);
      }
    }
  }

  lemma OpensIsNew(key: QueryKey, e: Payload, id: ContactId)
    ensures Opens(key, e, id) <==> e.New? && TargetKey(e) == Some(key) && e.Contact() == id
  {
  }

  lemma NotOpenedYet(key: QueryKey, es: seq<Payload>, id: ContactId)
    requires !Present(key, [], es, id)
    ensures forall j :: 0 <= j < |es| ==> !Opens(key, es[j], id)
  {
    forall j | 0 <= j < |es| ensures !Opens(key, es[j], id) {
      OpensIsNew(key, es[j], id);
    }
  }

  /** No message event targets the unified list: its order and its message counters stay as fetched for ever. */
  lemma {:induction false} UnifiedListNeverBumped(list: seq<Conversation>, es: seq<Payload>)
    ensures |RunList(Unified, list, es)| == |list|
    ensures forall i :: 0 <= i < |list| ==>
              && RunList(Unified, list, es)[i].contactId == list[i].contactId
              && RunList(Unified, list, es)[i].lastMessageSeq == list[i].lastMessageSeq
  {
    if es != [] {
      UnifiedListNeverBumped(list, es[..|es| - 1]);
    }
  }
}
