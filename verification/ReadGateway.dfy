/** The team read watermark on the server (backend/src/websocket/app.gateway.ts, handleReadMark). */
module ReadGateway {
  import opened Options
  import opened SocketEvents

  /** The two counters of a contact's row in the database. */
  datatype Counters = Counters(lastMessageSeq: nat, lastReadSeq: nat)

  type Contacts = map<ContactId, Counters>

  datatype Reply = Ok(lastReadSeq: nat) | Error(message: string)

  /** The guard of handleReadMark: nothing is unread. */
  predicate CaughtUp(c: Counters) {
    c.lastReadSeq >= c.lastMessageSeq
  }

  /** `UPDATE ... SET lastReadSeq = lastMessageSeq`. */
  function MarkedRead(contacts: Contacts, id: ContactId): Contacts
    requires id in contacts
  {
    contacts[id := Counters(contacts[id].lastMessageSeq, contacts[id].lastMessageSeq)]
  }

  /** A contact's row is created with both counters 0. */
  function WithContact(contacts: Contacts, id: ContactId): Contacts
    requires id !in contacts
  {
    contacts[id := Counters(0, 0)]
  }

  /** The message insert increments the counter of its contact in the same transaction. */
  function WithMessage(contacts: Contacts, id: ContactId): Contacts
    requires id in contacts
  {
    contacts[id := Counters(contacts[id].lastMessageSeq + 1, contacts[id].lastReadSeq)]
  }

  /** Every other contact's counters stay. */
  predicate OthersUntouched(before: Contacts, after: Contacts, id: ContactId) {
    forall other :: other in before && other != id ==> other in after && after[other] == before[other]
  }

  /** The watermarks broadcast for one contact, oldest first. */
  function BroadcastsOf(log: seq<ReadPayload>, id: ContactId): seq<int> {
    if log == [] then []
    else
      var earlier := BroadcastsOf(log[..|log| - 1], id);
      if log[|log| - 1].contactId == id then earlier + [log[|log| - 1].lastReadSeq] else earlier
  }

  ghost predicate Rising(marks: seq<int>, low: int, high: int) {
    && (forall i :: 0 <= i < |marks| ==> low < marks[i] <= high)
    && (forall i, j :: 0 <= i < j < |marks| ==> marks[i] < marks[j])
  }

  /** The watermark never passes the counter, and every broadcast of a contact exceeds the one before. */
  ghost predicate Consistent(contacts: Contacts, log: seq<ReadPayload>) {
    && (forall id :: id in contacts ==> contacts[id].lastReadSeq <= contacts[id].lastMessageSeq)
    && (forall id :: id in contacts ==> Rising(BroadcastsOf(log, id), 0, contacts[id].lastReadSeq))
    && (forall id :: id !in contacts ==> BroadcastsOf(log, id) == [])
  }

  /** Raising the watermark and broadcasting it keeps the order of the broadcasts. */
  lemma MarkKeepsConsistent(contacts: Contacts, log: seq<ReadPayload>, id: ContactId)
    requires Consistent(contacts, log) && id in contacts && !CaughtUp(contacts[id])
    ensures Consistent(MarkedRead(contacts, id), log + [ReadPayload(id, contacts[id].lastMessageSeq)])
  {
    var after, longer := MarkedRead(contacts, id), log + [ReadPayload(id, contacts[id].lastMessageSeq)];
    assert longer[..|log|] == log;
    forall other | other in after ensures Rising(BroadcastsOf(longer, other), 0, after[other].lastReadSeq) {
      assert Rising(BroadcastsOf(log, other), 0, contacts[other].lastReadSeq);
    }
  }

  class AppGateway {
    var contacts: Contacts
    /** READ_UPDATED events emitted to every socket, oldest first. */
    var emitted: seq<ReadPayload>

    ghost predicate Valid()
      reads this
    {
      Consistent(contacts, emitted)
    }

    constructor ()
      ensures Valid() && contacts == map[] && emitted == []
    {
      contacts, emitted := map[], [];
    }

    /** Done by whichever service first hears from a contact. */
    method AddContact(id: ContactId)
      requires Valid()
      modifies this`contacts
      ensures Valid()
      ensures contacts == if id in old(contacts) then old(contacts) else WithContact(old(contacts), id)
      ensures contacts.Keys == old(contacts).Keys + {id} && OthersUntouched(old(contacts), contacts, id)
      ensures contacts[id] == if id in old(contacts) then old(contacts)[id] else Counters(0, 0)
    {
      if id !in contacts { contacts := WithContact(contacts, id); }
    }

    /** nextContactSeq, called by whichever service stores a message; it fails when the contact does not exist. */
    method AppendMessage(id: ContactId) returns (messageSeq: Option<nat>)
      requires Valid()
      modifies this`contacts
      ensures Valid()
      ensures messageSeq.Some? <==> id in old(contacts)
      ensures messageSeq.None? ==> contacts == old(contacts)
      ensures messageSeq.Some? ==>
                contacts == WithMessage(old(contacts), id) && messageSeq.value == contacts[id].lastMessageSeq
      ensures messageSeq.Some? ==>
                && contacts.Keys == old(contacts).Keys && OthersUntouched(old(contacts), contacts, id)
                && messageSeq.value == old(contacts)[id].lastMessageSeq + 1
                && contacts[id].lastReadSeq == old(contacts)[id].lastReadSeq
    {
      if id !in contacts { return None; }
      contacts := WithMessage(contacts, id);
      messageSeq := Some(contacts[id].lastMessageSeq);
    }

    /**
     * handleReadMark run without interleaving. A caught-up mark changes and broadcasts nothing;
     * any other raises the watermark to the counter and broadcasts a strictly larger value than before.
     */
    method HandleReadMark(authenticated: bool, id: ContactId) returns (reply: Reply)
      requires Valid()
      modifies this
      ensures Valid()
      ensures !authenticated || id == "" || id !in old(contacts) ==>
                reply.Error? && contacts == old(contacts) && emitted == old(emitted)
      ensures authenticated && id != "" && id in old(contacts) ==>
                id in contacts && reply == Ok(contacts[id].lastReadSeq)
      ensures authenticated && id != "" && id in old(contacts) && CaughtUp(old(contacts)[id]) ==>
                contacts == old(contacts) && emitted == old(emitted)
      ensures authenticated && id != "" && id in old(contacts) && !CaughtUp(old(contacts)[id]) ==>
                && contacts == MarkedRead(old(contacts), id)
                && emitted == old(emitted) + [ReadPayload(id, old(contacts)[id].lastMessageSeq)]
                && old(contacts)[id].lastReadSeq < contacts[id].lastReadSeq
      ensures contacts.Keys == old(contacts).Keys && OthersUntouched(old(contacts), contacts, id)
      ensures id in contacts ==> contacts[id].lastMessageSeq == old(contacts)[id].lastMessageSeq
      ensures authenticated && id != "" && id in old(contacts) ==>
                contacts[id].lastReadSeq == old(contacts)[id].lastMessageSeq
      ensures emitted != old(emitted) <==>
                authenticated && id != "" && id in old(contacts)
                && old(contacts)[id].lastReadSeq < old(contacts)[id].lastMessageSeq
    {
      assert id in contacts ==> contacts[id].lastReadSeq <= contacts[id].lastMessageSeq;
      hide Consistent, BroadcastsOf;
      if !authenticated { return Error("Not authenticated"); }
      if id == "" { return Error("contactId is required"); }
      if id !in contacts { return Error("Contact not found"); }
      var contact := contacts[id];
      if contact.lastReadSeq >= contact.lastMessageSeq {
        return Ok(contact.lastReadSeq);
      }
      MarkKeepsConsistent(contacts, emitted, id);
      contacts := MarkedRead(contacts, id);
      var lastReadSeq := contacts[id].lastReadSeq;
      emitted := emitted + [ReadPayload(id, lastReadSeq)];
      return Ok(lastReadSeq);
    }
  }

  /** Strictly rising positive values up to `high` are at most `high` many. */
  lemma {:induction false} RisingIsShort(marks: seq<int>, low: int, high: int)
    requires Rising(marks, low, high) && low <= high
    ensures |marks| <= high - low
  {
    if marks != [] {
      RisingIsShort(marks[1..], marks[0], high);
    }
  }

  /** With handleReadMark as one step, a contact is never broadcast more often than it received messages. */
  lemma BroadcastsNeverExceedMessages(contacts: Contacts, log: seq<ReadPayload>, id: ContactId)
    requires Consistent(contacts, log) && id in contacts
    ensures |BroadcastsOf(log, id)| <= contacts[id].lastReadSeq <= contacts[id].lastMessageSeq
  {
    RisingIsShort(BroadcastsOf(log, id), 0, contacts[id].lastReadSeq);
  }
}
