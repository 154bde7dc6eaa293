/**
 * The read-watermark protocol as a transition system: one server, any number of clients, and
 * everything in flight between them. Steps split at every await of the source, and payloads may
 * be delivered in any order, lost or duplicated.
 */
module ReadProtocol {
  import opened Options
  import opened SocketEvents
  import opened CachePatch
  import opened ReadGateway
  import opened ChatView

  /** A broadcastConversationDelta (or, when `isNew`, broadcastConversationNew) still to run. */
  datatype Job = Job(contact: ContactId, isNew: bool)

  /** A read:mark sent by one client. */
  datatype Mark = Mark(client: nat, contact: ContactId)

  /** A list read from the server, not yet stored in the client's cache. */
  datatype Fetch = Fetch(client: nat, key: QueryKey, rows: seq<Conversation>)

  datatype Client = Client(
    cache: Cache,
    inbox: seq<Payload>,
    open: Option<ContactId>,
    visible: bool,
    guards: Guards,
    /** An effect of the view is due to run. */
    scheduled: bool)

  datatype State = State(
    contacts: Contacts,
    jobs: seq<Job>,
    /** Payloads built from a database read but not emitted yet. */
    unsent: seq<Payload>,
    marks: seq<Mark>,
    /** handleReadMark calls that passed the caught-up check and have not updated yet. */
    handlers: seq<Mark>,
    fetches: seq<Fetch>,
    clients: seq<Client>)

  datatype Step =
    | NewContact(contact: ContactId)
    | Message(contact: ContactId)
    | Announce(job: Job)
    | Snapshot(index: nat, payload: Payload)
    | DropJob(index: nat)
    | Emit(index: nat)
    | MarkArrive(index: nat)
    | MarkUpdate(index: nat)
    | Deliver(client: nat, index: nat)
    | Lose(client: nat, index: nat)
    | Duplicate(client: nat, index: nat)
    | FetchStart(fetch: Fetch)
    | FetchEnd(index: nat)
    | Open(client: nat, target: Option<ContactId>)
    | SetVisible(client: nat, visible: bool)
    | Remount(client: nat)
    | RunEffect(client: nat)

  function RemoveAt<T>(s: seq<T>, i: nat): seq<T>
    requires i < |s|
  {
    s[..i] + s[i + 1..]
  }

  // ── Steps ─────────────────────────────────────────────────────────────────

  /** The payload getContactSummary yields for a job: both counters come from one row read. */
  ghost predicate SummaryOf(contacts: Contacts, job: Job, p: Payload) {
    && job.contact in contacts
    && p.Contact() == job.contact
    && match p
       case Updated(u) => !job.isNew && u.lastMessageSeq == contacts[job.contact].lastMessageSeq
                          && u.lastReadSeq == contacts[job.contact].lastReadSeq
       case New(n) => job.isNew && n.lastMessageSeq == contacts[job.contact].lastMessageSeq
                      && n.lastReadSeq == contacts[job.contact].lastReadSeq
       case Read(_) => false
  }

  /** A list the server may answer: one row per contact, showing that contact's counters. */
  ghost predicate ServerRows(contacts: Contacts, rows: seq<Conversation>) {
    && Unique(rows)
    && forall row :: row in rows ==>
         row.contactId in contacts && row.lastMessageSeq == contacts[row.contactId].lastMessageSeq
         && row.lastReadSeq == contacts[row.contactId].lastReadSeq
  }

  ghost predicate Enabled(s: State, step: Step) {
    match step
    case NewContact(id) => id !in s.contacts
    case Message(id) => id in s.contacts
    case Announce(_) => true
    case Snapshot(i, p) => i < |s.jobs| && SummaryOf(s.contacts, s.jobs[i], p)
    case DropJob(i) => i < |s.jobs| && s.jobs[i].contact !in s.contacts
    case Emit(i) => i < |s.unsent|
    case MarkArrive(i) => i < |s.marks|
    case MarkUpdate(i) => i < |s.handlers| && s.handlers[i].contact in s.contacts
    case Deliver(c, i) => c < |s.clients| && i < |s.clients[c].inbox|
    case Lose(c, i) => c < |s.clients| && i < |s.clients[c].inbox|
    case Duplicate(c, i) => c < |s.clients| && i < |s.clients[c].inbox|
    case FetchStart(f) => f.client < |s.clients| && ServerRows(s.contacts, f.rows)
    case FetchEnd(i) => i < |s.fetches| && s.fetches[i].client < |s.clients|
    case Open(c, _) => c < |s.clients|
    case SetVisible(c, _) => c < |s.clients|
    case Remount(c) => c < |s.clients|
    case RunEffect(c) => c < |s.clients| && s.clients[c].scheduled
  }

  function Received(client: Client, p: Payload): Client {
    client.(inbox := client.inbox + [p])
  }

  /** `server.emit`: the payload is put on the way to every client. */
  function Broadcast(clients: seq<Client>, p: Payload): (r: seq<Client>)
    ensures |r| == |clients|
    ensures forall c :: 0 <= c < |clients| ==> r[c] == Received(clients[c], p)
  {
    seq(|clients|, c requires 0 <= c < |clients| => Received(clients[c], p))
  }

  /** A new cache; the effect runs when the open row's counter changed. */
  function WithCache(client: Client, cache: Cache): Client {
    client.(cache := cache,
            scheduled := client.scheduled || RowSeq(cache, client.open) != RowSeq(client.cache, client.open))
  }

  function Delivered(client: Client, i: nat): Client
    requires i < |client.inbox|
  {
    WithCache(client.(inbox := RemoveAt(client.inbox, i)), Patch(client.cache, client.inbox[i]))
  }

  /** Whether the due effect of the view sends a read:mark. */
  predicate Marks(client: Client) {
    var row := RowSeq(client.cache, client.open);
    row.Some? && ShouldMark(client.guards, client.visible, client.open.value, row.value)
  }

  function AfterEffect(client: Client): Client {
    if Marks(client)
    then client.(scheduled := false,
                 guards := client.guards[client.open.value := RowSeq(client.cache, client.open).value])
    else client.(scheduled := false)
  }

  function Next(s: State, step: Step): State
    requires Enabled(s, step)
  {
    match step
    case NewContact(id) => s.(contacts := WithContact(s.contacts, id))
    case Message(id) => s.(contacts := WithMessage(s.contacts, id), jobs := s.jobs + [Job(id, false)])
    case Announce(job) => s.(jobs := s.jobs + [job])
    case Snapshot(i, p) => s.(jobs := RemoveAt(s.jobs, i), unsent := s.unsent + [p])
    case DropJob(i) => s.(jobs := RemoveAt(s.jobs, i))
    case Emit(i) => s.(unsent := RemoveAt(s.unsent, i), clients := Broadcast(s.clients, s.unsent[i]))
    case MarkArrive(i) =>
      var m := s.marks[i];
      s.(marks := RemoveAt(s.marks, i),
         handlers := if m.contact in s.contacts && !CaughtUp(s.contacts[m.contact])
                     then s.handlers + [m] else s.handlers)
    case MarkUpdate(i) =>
      var id := s.handlers[i].contact;
      s.(handlers := RemoveAt(s.handlers, i), contacts := MarkedRead(s.contacts, id),
         unsent := s.unsent + [Read(ReadPayload(id, s.contacts[id].lastMessageSeq))])
    case Deliver(c, i) => s.(clients := s.clients[c := Delivered(s.clients[c], i)])
    case Lose(c, i) => s.(clients := s.clients[c := s.clients[c].(inbox := RemoveAt(s.clients[c].inbox, i))])
    case Duplicate(c, i) => s.(clients := s.clients[c := Received(s.clients[c], s.clients[c].inbox[i])])
    case FetchStart(f) => s.(fetches := s.fetches + [f])
    case FetchEnd(i) =>
      var f := s.fetches[i];
      s.(fetches := RemoveAt(s.fetches, i),
         clients := s.clients[f.client := WithCache(s.clients[f.client], s.clients[f.client].cache[f.key := f.rows])])
    case Open(c, id) =>
      var scheduled := s.clients[c].scheduled || id != s.clients[c].open;
      s.(clients := s.clients[c := s.clients[c].(open := id, scheduled := scheduled)])
    case SetVisible(c, v) =>
      var scheduled := s.clients[c].scheduled || v != s.clients[c].visible;
      s.(clients := s.clients[c := s.clients[c].(visible := v, scheduled := scheduled)])
    case Remount(c) => s.(clients := s.clients[c := s.clients[c].(guards := map[], scheduled := true)])
    case RunEffect(c) =>
      s.(clients := s.clients[c := AfterEffect(s.clients[c])],
         marks := if Marks(s.clients[c]) then s.marks + [Mark(c, s.clients[c].open.value)] else s.marks)
  }

  ghost predicate ValidRun(s: State, steps: seq<Step>)
    decreases |steps|
  {
    steps == [] || (Enabled(s, steps[0]) && ValidRun(Next(s, steps[0]), steps[1..]))
  }

  ghost function Final(s: State, steps: seq<Step>): State
    requires ValidRun(s, steps)
    decreases |steps|
  {
    if steps == [] then s else Final(Next(s, steps[0]), steps[1..])
  }

  /** Nothing fetched, nothing in flight, no guard raised. */
  ghost predicate Init(s: State) {
    && (forall id :: id in s.contacts ==> s.contacts[id].lastReadSeq <= s.contacts[id].lastMessageSeq)
    && s.jobs == [] && s.unsent == [] && s.marks == [] && s.handlers == [] && s.fetches == []
    && forall c :: 0 <= c < |s.clients| ==>
         var client := s.clients[c];
         client.cache == map[] && client.inbox == [] && client.guards == map[] && client.open == None
  }

  // ── What the steps add up to ──────────────────────────────────────────────

  /** How many messages of the contact the run stores. */
  function MessagesTo(steps: seq<Step>, id: ContactId): nat
    decreases |steps|
  {
    if steps == [] then 0 else (if steps[0] == Message(id) then 1 else 0) + MessagesTo(steps[1..], id)
  }

  function CounterOf(contacts: Contacts, id: ContactId): nat {
    if id in contacts then contacts[id].lastMessageSeq else 0
  }

  lemma CountersStep(s: State, step: Step, id: ContactId)
    requires Enabled(s, step)
    ensures id in Next(s, step).contacts <==> id in s.contacts || step == NewContact(id)
    ensures CounterOf(Next(s, step).contacts, id) == CounterOf(s.contacts, id) + (if step == Message(id) then 1 else 0)
  {
  }

  /** A counter counts: it rises by one for every message of its contact and by nothing else. */
  lemma {:induction false} CountersCountMessages(s: State, steps: seq<Step>, id: ContactId)
    requires ValidRun(s, steps)
    ensures id in Final(s, steps).contacts <==> id in s.contacts || NewContact(id) in steps
    ensures CounterOf(Final(s, steps).contacts, id) == CounterOf(s.contacts, id) + MessagesTo(steps, id)
    decreases |steps|
  {
    if steps != [] {
      CountersStep(s, steps[0], id);
      hide Next, Enabled;
      CountersCountMessages(Next(s, steps[0]), steps[1..], id);
      assert NewContact(id) in steps <==> NewContact(id) == steps[0] || NewContact(id) in steps[1..];
    }
  }

  /** What the step puts on its way to client c. */
  function Incoming(s: State, step: Step, c: nat): multiset<Payload>
    requires c < |s.clients|
  {
    if step.Emit? && step.index < |s.unsent| then multiset{s.unsent[step.index]}
    else if step.Duplicate? && step.client == c && step.index < |s.clients[c].inbox|
    then multiset{s.clients[c].inbox[step.index]} else multiset{}
  }

  /** What the step takes off it. */
  function Outgoing(s: State, step: Step, c: nat): multiset<Payload>
    requires c < |s.clients|
  {
    if (step.Deliver? || step.Lose?) && step.client == c && step.index < |s.clients[c].inbox|
    then multiset{s.clients[c].inbox[step.index]} else multiset{}
  }

  lemma RemoveAtTakesOne<T>(s: seq<T>, i: nat)
    requires i < |s|
    ensures multiset(RemoveAt(s, i)) == multiset(s) - multiset{s[i]}
  {
    assert s == s[..i] + [s[i]] + s[i + 1..];
  }

  lemma InboxStep(s: State, step: Step, c: nat)
    requires Enabled(s, step) && c < |s.clients|
    ensures |Next(s, step).clients| == |s.clients|
    ensures var inbox := s.clients[c].inbox;
            Next(s, step).clients[c].inbox ==
              if step.Emit? then inbox + [s.unsent[step.index]]
              else if step.Duplicate? && step.client == c then inbox + [inbox[step.index]]
              else if (step.Deliver? || step.Lose?) && step.client == c then RemoveAt(inbox, step.index)
              else inbox
  {
    hide RemoveAt, Patch, RowSeq, Marks, MarkedRead, WithMessage, WithContact, CaughtUp;
  }

  /**
   * Every emit puts one copy on the way to every client, and there is one more or less only where one is
   * duplicated, lost or delivered: no other step makes up a payload or swallows one.
   */
  lemma PayloadsConserved(s: State, step: Step, c: nat)
    requires Enabled(s, step) && c < |s.clients|
    ensures c < |Next(s, step).clients|
    ensures multiset(Next(s, step).clients[c].inbox)
         == multiset(s.clients[c].inbox) + Incoming(s, step, c) - Outgoing(s, step, c)
  {
    InboxStep(s, step, c);
    if (step.Deliver? || step.Lose?) && step.client == c { RemoveAtTakesOne(s.clients[c].inbox, step.index); }
    hide Next, RemoveAt;
  }

  /** Whether a view showing this contact marks it: it is visible, and its row counts further than was marked. */
  predicate Unmarked(client: Client, target: Option<ContactId>, guards: Guards) {
    var row := RowSeq(client.cache, target);
    row.Some? && row.value > (if target.value in guards then guards[target.value] else 0)
  }

  /** A remounted view forgets what it marked: its next effect marks the open contact again. */
  lemma RemountMarksAgain(s: State, c: nat)
    requires c < |s.clients| && s.clients[c].visible && s.clients[c].open.Some?
    ensures Enabled(s, Remount(c)) && Enabled(Next(s, Remount(c)), RunEffect(c))
    ensures Next(Next(s, Remount(c)), RunEffect(c)).marks ==
              if Unmarked(s.clients[c], s.clients[c].open, map[])
              then s.marks + [Mark(c, s.clients[c].open.value)] else s.marks
  {
    hide RowSeq;
  }

  /** Opening a contact in a visible view marks it by the next effect, if its row counts further than marked. */
  lemma OpeningMarks(s: State, c: nat, id: ContactId)
    requires c < |s.clients| && s.clients[c].visible && s.clients[c].open != Some(id)
    ensures Enabled(s, Open(c, Some(id))) && Enabled(Next(s, Open(c, Some(id))), RunEffect(c))
    ensures Next(Next(s, Open(c, Some(id))), RunEffect(c)).marks ==
              if Unmarked(s.clients[c], Some(id), s.clients[c].guards) then s.marks + [Mark(c, id)] else s.marks
  {
    hide RowSeq;
  }

  /** A view coming to the front marks its contact likewise, and one sent to the back marks nothing. */
  lemma ShowingMarks(s: State, c: nat, visible: bool)
    requires c < |s.clients| && s.clients[c].visible != visible && s.clients[c].open.Some?
    ensures Enabled(s, SetVisible(c, visible)) && Enabled(Next(s, SetVisible(c, visible)), RunEffect(c))
    ensures Next(Next(s, SetVisible(c, visible)), RunEffect(c)).marks ==
              if visible && Unmarked(s.clients[c], s.clients[c].open, s.clients[c].guards)
              then s.marks + [Mark(c, s.clients[c].open.value)] else s.marks
  {
    hide RowSeq;
  }

  // ── Safety ────────────────────────────────────────────────────────────────

  /** No contact disappears and no counter decreases. */
  ghost predicate Grows(before: Contacts, after: Contacts) {
    forall id :: id in before ==>
      id in after && before[id].lastMessageSeq <= after[id].lastMessageSeq
        && before[id].lastReadSeq <= after[id].lastReadSeq
  }

  ghost predicate PayloadBounded(contacts: Contacts, p: Payload) {
    && p.Contact() in contacts
    && match p
       case Updated(u) => u.lastMessageSeq <= contacts[u.contactId].lastMessageSeq
         && u.lastReadSeq <= contacts[u.contactId].lastReadSeq
       case New(n) => n.lastMessageSeq <= contacts[n.contactId].lastMessageSeq
         && n.lastReadSeq <= contacts[n.contactId].lastReadSeq
       case Read(r) => r.lastReadSeq <= contacts[r.contactId].lastReadSeq
  }

  ghost predicate RowBounded(contacts: Contacts, row: Conversation) {
    && row.contactId in contacts
    && row.lastMessageSeq <= contacts[row.contactId].lastMessageSeq
    && row.lastReadSeq <= contacts[row.contactId].lastReadSeq
  }

  ghost predicate ListBounded(contacts: Contacts, list: seq<Conversation>) {
    Unique(list) && forall row :: row in list ==> RowBounded(contacts, row)
  }

  ghost predicate CacheBounded(contacts: Contacts, cache: Cache) {
    forall key :: key in cache ==> ListBounded(contacts, cache[key])
  }

  ghost predicate InboxBounded(contacts: Contacts, inbox: seq<Payload>) {
    forall p :: p in inbox ==> PayloadBounded(contacts, p)
  }

  ghost predicate GuardsBounded(contacts: Contacts, guards: Guards) {
    forall id :: id in guards ==> id in contacts && guards[id] <= contacts[id].lastMessageSeq
  }

  ghost predicate ClientBounded(contacts: Contacts, client: Client) {
    && CacheBounded(contacts, client.cache)
    && InboxBounded(contacts, client.inbox)
    && GuardsBounded(contacts, client.guards)
  }

  /** Everything a client holds, is about to receive, or has asked for is at most the server's value. */
  ghost predicate Safe(s: State) {
    && (forall id :: id in s.contacts ==> s.contacts[id].lastReadSeq <= s.contacts[id].lastMessageSeq)
    && InboxBounded(s.contacts, s.unsent)
    && (forall i :: 0 <= i < |s.handlers| ==> s.handlers[i].contact in s.contacts)
    && (forall i :: 0 <= i < |s.fetches| ==>
          s.fetches[i].client < |s.clients| && ListBounded(s.contacts, s.fetches[i].rows))
    && (forall c :: 0 <= c < |s.clients| ==> ClientBounded(s.contacts, s.clients[c]))
  }

  lemma ListBoundedGrows(before: Contacts, after: Contacts, list: seq<Conversation>)
    requires Grows(before, after) && ListBounded(before, list)
    ensures ListBounded(after, list)
  {
    forall row | row in list ensures RowBounded(after, row) {
      assert RowBounded(before, row);
    }
  }

  lemma InboxBoundedGrows(before: Contacts, after: Contacts, inbox: seq<Payload>)
    requires Grows(before, after) && InboxBounded(before, inbox)
    ensures InboxBounded(after, inbox)
  {
    forall p | p in inbox ensures PayloadBounded(after, p) {
      assert PayloadBounded(before, p);
    }
  }

  lemma ClientBoundedGrows(before: Contacts, after: Contacts, client: Client)
    requires Grows(before, after) && ClientBounded(before, client)
    ensures ClientBounded(after, client)
  {
    forall key | key in client.cache ensures ListBounded(after, client.cache[key]) {
      ListBoundedGrows(before, after, client.cache[key]);
    }
    InboxBoundedGrows(before, after, client.inbox);
  }

  /** Only the server changed, and it only grew. */
  lemma ServerGrows(s: State, t: State)
    requires Safe(s) && Grows(s.contacts, t.contacts)
    requires forall id :: id in t.contacts ==> t.contacts[id].lastReadSeq <= t.contacts[id].lastMessageSeq
    requires t.clients == s.clients && t.fetches == s.fetches
    requires InboxBounded(t.contacts, t.unsent)
    requires forall i :: 0 <= i < |t.handlers| ==> t.handlers[i].contact in t.contacts
    ensures Safe(t)
  {
    forall i | 0 <= i < |t.fetches| ensures ListBounded(t.contacts, t.fetches[i].rows) {
      ListBoundedGrows(s.contacts, t.contacts, t.fetches[i].rows);
    }
    forall c | 0 <= c < |t.clients| ensures ClientBounded(t.contacts, t.clients[c]) {
      ClientBoundedGrows(s.contacts, t.contacts, t.clients[c]);
    }
  }

  lemma PatchBounded(contacts: Contacts, list: seq<Conversation>, key: QueryKey, p: Payload)
    requires ListBounded(contacts, list) && PayloadBounded(contacts, p)
    ensures ListBounded(contacts, PatchList(key, list, p))
  {
    PatchedRows(key, list, p);
    PatchedUnique(key, list, p);
    forall row | row in PatchList(key, list, p) ensures RowBounded(contacts, row) {
      assert RowOrigin(key, list, p, row);
    }
  }

  lemma DeliveredBounded(contacts: Contacts, client: Client, i: nat)
    requires ClientBounded(contacts, client) && i < |client.inbox|
    ensures ClientBounded(contacts, Delivered(client, i))
  {
    var p := client.inbox[i];
    forall key | key in client.cache ensures ListBounded(contacts, PatchList(key, client.cache[key], p)) {
      PatchBounded(contacts, client.cache[key], key, p);
    }
  }

  /** The view never marks beyond the server's counter. */
  lemma EffectBounded(contacts: Contacts, client: Client)
    requires ClientBounded(contacts, client)
    ensures ClientBounded(contacts, AfterEffect(client))
  {
    if Marks(client) {
      var list := client.cache[ByChannel(WHATSAPP)];
      var idx := FindIndex(list, client.open.value);
      assert list[idx] in list;
      assert RowBounded(contacts, list[idx]);
    }
  }

  /** Only one client changed, and it stays bounded. */
  lemma ClientChanges(s: State, t: State, c: nat)
    requires Safe(s) && c < |s.clients| && t.contacts == s.contacts && t.unsent == s.unsent && t.handlers == s.handlers
    requires |t.clients| == |s.clients| && forall k :: 0 <= k < |s.clients| && k != c ==> t.clients[k] == s.clients[k]
    requires forall i :: 0 <= i < |t.fetches| ==> t.fetches[i] in s.fetches
    requires ClientBounded(s.contacts, t.clients[c])
    ensures Safe(t)
  {
  }

  predicate IsClientStep(step: Step) {
    || step.Deliver? || step.Lose? || step.Duplicate? || step.Open? || step.SetVisible? || step.Remount?
    || step.RunEffect? || step.FetchEnd?
  }

  lemma SafeClientStep(s: State, step: Step)
    requires Safe(s) && Enabled(s, step) && IsClientStep(step)
    ensures Safe(Next(s, step)) && Next(s, step).contacts == s.contacts
  {
    var t := Next(s, step);
    var c := if step.FetchEnd? then s.fetches[step.index].client else step.client;
    var client := s.clients[c];
    assert ClientBounded(s.contacts, client);
    assert ClientBounded(s.contacts, t.clients[c]) by {
      if step.Deliver? { DeliveredBounded(s.contacts, client, step.index); }
      else if step.RunEffect? { EffectBounded(s.contacts, client); }
    }
    ClientChanges(s, t, c);
  }

  lemma SafeServerStep(s: State, step: Step)
    requires Safe(s) && Enabled(s, step) && (step.NewContact? || step.Message? || step.MarkUpdate?)
    ensures Safe(Next(s, step)) && Grows(s.contacts, Next(s, step).contacts)
  {
    var t := Next(s, step);
    InboxBoundedGrows(s.contacts, t.contacts, s.unsent);
    ServerGrows(s, t);
  }

  /** One step, however interleaved, keeps every copy below the server and never lowers a counter. */
  lemma SafeStep(s: State, step: Step)
    requires Safe(s) && Enabled(s, step)
    ensures Safe(Next(s, step)) && Grows(s.contacts, Next(s, step).contacts)
  {
    if step.NewContact? || step.Message? || step.MarkUpdate? {
      SafeServerStep(s, step);
    } else if IsClientStep(step) {
      SafeClientStep(s, step);
    } else if step.Emit? {
      assert s.unsent[step.index] in s.unsent;
    } else if step.FetchStart? {
      forall row | row in step.fetch.rows ensures RowBounded(s.contacts, row) {}
    }
  }

  /** Watermark safety over whole runs, under any reordering, loss and duplication. */
  lemma {:induction false} SafeRun(s: State, steps: seq<Step>)
    requires Safe(s) && ValidRun(s, steps)
    ensures Safe(Final(s, steps)) && Grows(s.contacts, Final(s, steps).contacts)
    decreases |steps|
  {
    if steps != [] {
      SafeStep(s, steps[0]);
      SafeRun(Next(s, steps[0]), steps[1..]);
    }
  }

  lemma InitIsSafe(s: State)
    requires Init(s)
    ensures Safe(s) && MarksCovered(s) && EffectsCovered(s)
  {
  }

  // ── No mark is forgotten ──────────────────────────────────────────────────

  /** A read:mark of this client for this contact is on its way or being handled. */
  ghost predicate MarkPending(s: State, c: nat, id: ContactId) {
    Mark(c, id) in s.marks || Mark(c, id) in s.handlers
  }

  /** Once a guard was raised and its mark is handled, the server has read at least that far. */
  ghost predicate MarksCovered(s: State) {
    forall c, id :: 0 <= c < |s.clients| && id in s.clients[c].guards && !MarkPending(s, c, id) ==>
      id in s.contacts && s.clients[c].guards[id] <= s.contacts[id].lastReadSeq
  }

  lemma InRemoved<T>(s: seq<T>, i: nat, x: T)
    requires i < |s| && x in s && x != s[i]
    ensures x in RemoveAt(s, i)
  {
    var j :| 0 <= j < |s| && s[j] == x;
    assert RemoveAt(s, i)[if j < i then j else j - 1] == x;
  }

  /** A pending mark stays pending unless this very step takes it. */
  lemma MarkStays(s: State, step: Step, m: Mark)
    requires Enabled(s, step) && (step.MarkArrive? || step.MarkUpdate?) && MarkPending(s, m.client, m.contact)
    ensures || MarkPending(Next(s, step), m.client, m.contact)
            || (step.MarkArrive? && s.marks[step.index] == m)
            || (step.MarkUpdate? && s.handlers[step.index] == m)
  {
    if step.MarkArrive? {
      if m in s.marks && s.marks[step.index] != m { InRemoved(s.marks, step.index, m); }
    } else {
      if m in s.handlers && s.handlers[step.index] != m { InRemoved(s.handlers, step.index, m); }
    }
  }

  /** A handled mark leaves the watermark at the counter it found, or found it there already. */
  lemma MarkHandled(s: State, step: Step)
    requires Safe(s) && MarksCovered(s) && Enabled(s, step)
    requires step.MarkArrive? || step.MarkUpdate?
    ensures MarksCovered(Next(s, step))
  {
    var t := Next(s, step);
    forall c, id | 0 <= c < |t.clients| && id in t.clients[c].guards && !MarkPending(t, c, id)
      ensures id in t.contacts && t.clients[c].guards[id] <= t.contacts[id].lastReadSeq
    {
      assert ClientBounded(s.contacts, s.clients[c]);
      assert id in s.contacts && s.clients[c].guards[id] <= s.contacts[id].lastMessageSeq;
      if MarkPending(s, c, id) { MarkStays(s, step, Mark(c, id)); }
    }
  }

  /** An effect that raises a guard puts its mark on the way. */
  lemma MarkSent(s: State, c: nat)
    requires MarksCovered(s) && Enabled(s, RunEffect(c))
    ensures MarksCovered(Next(s, RunEffect(c)))
  {
    var t := Next(s, RunEffect(c));
    if Marks(s.clients[c]) {
      var id := s.clients[c].open.value;
      assert t.marks[|s.marks|] == Mark(c, id);
      assert MarkPending(t, c, id);
    }
    forall k, id | 0 <= k < |t.clients| && id in t.clients[k].guards && !MarkPending(t, k, id)
      ensures id in t.contacts && t.clients[k].guards[id] <= t.contacts[id].lastReadSeq
    {
      assert id in s.clients[k].guards && !MarkPending(s, k, id);
    }
  }

  lemma {:induction false} MarksCoveredStep(s: State, step: Step)
    requires Safe(s) && MarksCovered(s) && Enabled(s, step)
    ensures MarksCovered(Next(s, step))
  {
    if step.MarkArrive? || step.MarkUpdate? {
      MarkHandled(s, step);
    } else if step.RunEffect? {
      MarkSent(s, step.client);
    } else {
      var t := Next(s, step);
      forall c, id | 0 <= c < |t.clients| && id in t.clients[c].guards && !MarkPending(t, c, id)
        ensures id in t.contacts && t.clients[c].guards[id] <= t.contacts[id].lastReadSeq
      {
        assert id in s.clients[c].guards && s.clients[c].guards[id] == t.clients[c].guards[id];
        assert !MarkPending(s, c, id);
      }
    }
  }

  // ── No effect is missed ───────────────────────────────────────────────────

  /** Whenever the open, visible chat shows a counter above its guard, an effect is due. */
  ghost predicate EffectsCovered(s: State) {
    forall c :: 0 <= c < |s.clients| && Marks(s.clients[c]) ==> s.clients[c].scheduled
  }

  /** Storing a list makes an effect due whenever it makes a mark due. */
  lemma CacheCovers(client: Client, cache: Cache)
    requires Marks(client) ==> client.scheduled
    ensures Marks(WithCache(client, cache)) ==> WithCache(client, cache).scheduled
  {
  }

  /** The two effects of the view, between them, react to every way a mark can become due. */
  lemma EffectsCoveredStep(s: State, step: Step)
    requires EffectsCovered(s) && Enabled(s, step)
    ensures EffectsCovered(Next(s, step))
  {
    var t := Next(s, step);
    forall c | 0 <= c < |t.clients| && Marks(t.clients[c]) ensures t.clients[c].scheduled {
      var client := s.clients[c];
      if step.Deliver? && step.client == c {
        CacheCovers(client.(inbox := RemoveAt(client.inbox, step.index)),
          Patch(client.cache, client.inbox[step.index]));
      } else if step.FetchEnd? && s.fetches[step.index].client == c {
        CacheCovers(client, client.cache[s.fetches[step.index].key := s.fetches[step.index].rows]);
      } else if !step.Open? && !step.SetVisible? && !step.Remount? {
        assert Marks(client);
      }
    }
  }

  ghost predicate Invariant(s: State) {
    Safe(s) && MarksCovered(s) && EffectsCovered(s)
  }

  /** All three invariants hold in every state of every run. */
  lemma {:induction false} InvariantRun(s: State, steps: seq<Step>)
    requires Invariant(s) && ValidRun(s, steps)
    ensures Invariant(Final(s, steps))
    decreases |steps|
  {
    if steps != [] {
      SafeStep(s, steps[0]);
      MarksCoveredStep(s, steps[0]);
      EffectsCoveredStep(s, steps[0]);
      InvariantRun(Next(s, steps[0]), steps[1..]);
    }
  }
}
