/**
 * Convergence and quiescence of the read protocol on orderly runs: a snapshot is emitted in the step
 * that takes it, delivery is in order and lossless, and each contact uses one channel.
 */
module ReadConvergence {
  import opened Options
  import opened SocketEvents
  import opened CachePatch
  import opened ReadGateway
  import opened ChatView
  import opened ReadProtocol

  /** Steps of the general protocol run as one. */
  datatype Block =
    | Single(step: Step)
    | BroadcastNow(index: nat, payload: Payload)
    | MarkReadNow(index: nat)
    | FetchNow(fetch: Fetch)

  function Expand(block: Block): seq<Step> {
    match block
    case Single(step) => [step]
    case BroadcastNow(i, p) => [Snapshot(i, p), Emit(0)]
    case MarkReadNow(i) => [MarkUpdate(i), Emit(0)]
    case FetchNow(f) => [FetchStart(f), FetchEnd(0)]
  }

  /** The list of the contact's one channel. */
  function Home(channelOf: ContactId -> Channel, id: ContactId): QueryKey {
    ByChannel(channelOf(id))
  }

  ghost predicate Orderly(block: Block, channelOf: ContactId -> Channel) {
    match block
    case Single(step) =>
      || step.NewContact? || step.Message? || step.Announce? || step.DropJob? || step.MarkArrive?
      || (step.Deliver? && step.index == 0)
      || step.Open? || step.SetVisible? || step.Remount? || step.RunEffect?
    case BroadcastNow(_, p) => TargetKey(p) == Some(Home(channelOf, p.Contact()))
    case MarkReadNow(_) => true
    case FetchNow(_) => true
  }

  ghost predicate OrderlyRun(s: State, blocks: seq<Block>, channelOf: ContactId -> Channel)
    decreases |blocks|
  {
    blocks == [] ||
    (Orderly(blocks[0], channelOf) && ValidRun(s, Expand(blocks[0]))
     && OrderlyRun(Final(s, Expand(blocks[0])), blocks[1..], channelOf))
  }

  ghost function OrderlyFinal(s: State, blocks: seq<Block>, channelOf: ContactId -> Channel): State
    requires OrderlyRun(s, blocks, channelOf)
    decreases |blocks|
  {
    if blocks == [] then s
    else OrderlyFinal(Final(s, Expand(blocks[0])), blocks[1..], channelOf)
  }

  // ── What the queue will write ─────────────────────────────────────────────

  /** The lastReadSeq an event writes into the contact's row of this list. */
  function ReadWrite(key: QueryKey, id: ContactId, e: Payload): Option<int> {
    if e.Contact() != id then None
    else match e
      case Updated(p) => if TargetKey(e) == Some(key) then Some(p.lastReadSeq) else None
      case New(p) => if TargetKey(e) == Some(key) then Some(p.lastReadSeq) else None
      case Read(p) => Some(p.lastReadSeq)
  }

  /** The lastMessageSeq an event writes into the contact's row of this list. */
  function MessageWrite(key: QueryKey, id: ContactId, e: Payload): Option<int> {
    if e.Contact() != id then None
    else match e
      case Updated(p) => if TargetKey(e) == Some(key) then Some(p.lastMessageSeq) else None
      case New(p) => if TargetKey(e) == Some(key) then Some(p.lastMessageSeq) else None
      case Read(p) => None
  }

  function Or(a: Option<int>, b: Option<int>): Option<int> {
    if a.Some? then a else b
  }

  function LastRead(key: QueryKey, id: ContactId, inbox: seq<Payload>): Option<int> {
    if inbox == [] then None else Or(LastRead(key, id, inbox[1..]), ReadWrite(key, id, inbox[0]))
  }

  function LastMessage(key: QueryKey, id: ContactId, inbox: seq<Payload>): Option<int> {
    if inbox == [] then None else Or(LastMessage(key, id, inbox[1..]), MessageWrite(key, id, inbox[0]))
  }

  lemma {:induction false} LastWriteOfAppend(key: QueryKey, id: ContactId, inbox: seq<Payload>, e: Payload)
    ensures LastRead(key, id, inbox + [e]) == Or(ReadWrite(key, id, e), LastRead(key, id, inbox))
    ensures LastMessage(key, id, inbox + [e]) == Or(MessageWrite(key, id, e), LastMessage(key, id, inbox))
  {
    if inbox != [] {
      LastWriteOfAppend(key, id, inbox[1..], e);
      assert (inbox + [e])[1..] == inbox[1..] + [e];
    }
  }

  // ── The invariant ─────────────────────────────────────────────────────────

  /** A broadcast for the contact is still to run. */
  ghost predicate Announced(jobs: seq<Job>, id: ContactId) {
    exists j :: 0 <= j < |jobs| && jobs[j].contact == id
  }

  /** The last write on its way is the server's value. */
  ghost predicate QueueSettles(contacts: Contacts, jobs: seq<Job>, inbox: seq<Payload>, key: QueryKey, id: ContactId,
                               channelOf: ContactId -> Channel)
  {
    && (LastRead(key, id, inbox).Some? ==> id in contacts && LastRead(key, id, inbox).value == contacts[id].lastReadSeq)
    && (key == Home(channelOf, id) && LastMessage(key, id, inbox).Some? ==>
          id in contacts && (Announced(jobs, id) || LastMessage(key, id, inbox).value == contacts[id].lastMessageSeq))
  }

  /** A row no write is on its way to already shows the server's value. */
  ghost predicate RowSettles(contacts: Contacts, jobs: seq<Job>, inbox: seq<Payload>, key: QueryKey, row: Conversation,
                             channelOf: ContactId -> Channel)
  {
    var id := row.contactId;
    && id in contacts
    && (LastRead(key, id, inbox).None? ==> row.lastReadSeq == contacts[id].lastReadSeq)
    && (key == Home(channelOf, id) && LastMessage(key, id, inbox).None? ==>
          Announced(jobs, id) || row.lastMessageSeq == contacts[id].lastMessageSeq)
  }

  ghost predicate ClientConverges(contacts: Contacts, jobs: seq<Job>, client: Client, channelOf: ContactId -> Channel) {
    && (forall key, id :: QueueSettles(contacts, jobs, client.inbox, key, id, channelOf))
    && (forall key, row :: key in client.cache && row in client.cache[key] ==>
          RowSettles(contacts, jobs, client.inbox, key, row, channelOf))
  }

  ghost predicate Converging(s: State, channelOf: ContactId -> Channel) {
    && Invariant(s)
    && s.unsent == [] && s.fetches == []
    && forall c :: 0 <= c < |s.clients| ==> ClientConverges(s.contacts, s.jobs, s.clients[c], channelOf)
  }

  // ── The server's side of a step ───────────────────────────────────────────

  /** Watermarks stay, and a counter changes only with a broadcast announced. */
  lemma ConvergesFrame(contacts: Contacts, jobs: seq<Job>, contacts': Contacts, jobs': seq<Job>, client: Client,
                       channelOf: ContactId -> Channel)
    requires ClientConverges(contacts, jobs, client, channelOf)
    requires forall id :: id in contacts ==>
      && id in contacts' && contacts'[id].lastReadSeq == contacts[id].lastReadSeq
      && (Announced(jobs', id) || (!Announced(jobs, id) && contacts'[id].lastMessageSeq == contacts[id].lastMessageSeq))
    ensures ClientConverges(contacts', jobs', client, channelOf)
  {
    forall key, id ensures QueueSettles(contacts', jobs', client.inbox, key, id, channelOf) {
      assert QueueSettles(contacts, jobs, client.inbox, key, id, channelOf);
    }
    forall key, row | key in client.cache && row in client.cache[key]
      ensures RowSettles(contacts', jobs', client.inbox, key, row, channelOf)
    {
      assert RowSettles(contacts, jobs, client.inbox, key, row, channelOf);
    }
  }

  /** The payload carries the server's present counters. */
  ghost predicate UpToDate(contacts: Contacts, p: Payload) {
    && p.Contact() in contacts
    && match p
       case Updated(u) => u.lastMessageSeq == contacts[u.contactId].lastMessageSeq
         && u.lastReadSeq == contacts[u.contactId].lastReadSeq
       case New(n) => n.lastMessageSeq == contacts[n.contactId].lastMessageSeq
         && n.lastReadSeq == contacts[n.contactId].lastReadSeq
       case Read(r) => r.lastReadSeq == contacts[r.contactId].lastReadSeq
  }

  /** Emitting an up-to-date payload settles its contact and leaves the others settled. */
  lemma ConvergesEmit(contacts: Contacts, jobs: seq<Job>, contacts': Contacts, jobs': seq<Job>, client: Client,
                      p: Payload,
                      channelOf: ContactId -> Channel)
    requires ClientConverges(contacts, jobs, client, channelOf)
    requires UpToDate(contacts', p)
    requires contacts'.Keys == contacts.Keys
    requires forall id :: id in contacts ==>
      && contacts'[id].lastMessageSeq == contacts[id].lastMessageSeq
      && (id != p.Contact() || !p.Read? ==> contacts'[id].lastReadSeq == contacts[id].lastReadSeq)
    requires p.Read? || TargetKey(p) == Some(Home(channelOf, p.Contact()))
    requires forall id :: Announced(jobs, id) && (p.Read? || id != p.Contact()) ==> Announced(jobs', id)
    ensures ClientConverges(contacts', jobs', Received(client, p), channelOf)
  {
    var inbox := client.inbox + [p];
    forall key, id ensures QueueSettles(contacts', jobs', inbox, key, id, channelOf) {
      LastWriteOfAppend(key, id, client.inbox, p);
      assert QueueSettles(contacts, jobs, client.inbox, key, id, channelOf);
    }
    forall key, row | key in client.cache && row in client.cache[key]
      ensures RowSettles(contacts', jobs', inbox, key, row, channelOf)
    {
      LastWriteOfAppend(key, row.contactId, client.inbox, p);
      assert RowSettles(contacts, jobs, client.inbox, key, row, channelOf);
    }
  }

  // ── The client's side of a step ───────────────────────────────────────────

  /** Patching writes exactly what the queue said it would. */
  lemma PatchedRowWrites(key: QueryKey, list: seq<Conversation>, e: Payload, row: Conversation)
    returns (prior: Conversation)
    requires Unique(list) && row in PatchList(key, list, e)
    ensures ReadWrite(key, row.contactId, e).Some? ==> row.lastReadSeq == ReadWrite(key, row.contactId, e).value
    ensures MessageWrite(key, row.contactId, e).Some? ==>
              row.lastMessageSeq == MessageWrite(key, row.contactId, e).value
    ensures ReadWrite(key, row.contactId, e).None? || MessageWrite(key, row.contactId, e).None? ==>
      && prior in list && prior.contactId == row.contactId
      && (MessageWrite(key, row.contactId, e).None? ==> row.lastMessageSeq == prior.lastMessageSeq)
      && (ReadWrite(key, row.contactId, e).None? ==> row.lastReadSeq == prior.lastReadSeq)
  {
    PatchedRows(key, list, e);
    assert RowOrigin(key, list, e, row);
    prior := row;
    if e.Read? && e.Contact() == row.contactId {
      prior :| prior in list && row == prior.(lastReadSeq := e.read.lastReadSeq);
    }
  }

  /** Delivering the head of the queue moves its writes into the rows. */
  lemma ConvergesDeliver(contacts: Contacts, jobs: seq<Job>, client: Client, channelOf: ContactId -> Channel)
    requires ClientConverges(contacts, jobs, client, channelOf)
    requires ClientBounded(contacts, client) && client.inbox != []
    ensures ClientConverges(contacts, jobs, Delivered(client, 0), channelOf)
  {
    var inbox := client.inbox;
    var e := inbox[0];
    assert RemoveAt(inbox, 0) == inbox[1..];
    assert e in inbox && PayloadBounded(contacts, e);
    forall key, id ensures QueueSettles(contacts, jobs, inbox[1..], key, id, channelOf) {
      assert QueueSettles(contacts, jobs, inbox, key, id, channelOf);
    }
    forall key, row | key in client.cache && row in PatchList(key, client.cache[key], e)
      ensures RowSettles(contacts, jobs, inbox[1..], key, row, channelOf)
    {
      assert ListBounded(contacts, client.cache[key]);
      assert QueueSettles(contacts, jobs, inbox, key, row.contactId, channelOf);
      var prior := PatchedRowWrites(key, client.cache[key], e, row);
      if prior in client.cache[key] {
        assert RowSettles(contacts, jobs, inbox, key, prior, channelOf);
      }
    }
  }

  /** A list the server answers at once shows the server's values. */
  lemma ConvergesFetch(contacts: Contacts, jobs: seq<Job>, client: Client, key: QueryKey, rows: seq<Conversation>,
                       channelOf: ContactId -> Channel)
    requires ClientConverges(contacts, jobs, client, channelOf) && ServerRows(contacts, rows)
    ensures ClientConverges(contacts, jobs, WithCache(client, client.cache[key := rows]), channelOf)
  {
  }

  /** Only the fields of the view changed. */
  lemma ConvergesView(contacts: Contacts, jobs: seq<Job>, client: Client, client': Client,
                      channelOf: ContactId -> Channel)
    requires ClientConverges(contacts, jobs, client, channelOf)
    requires client'.cache == client.cache && client'.inbox == client.inbox
    ensures ClientConverges(contacts, jobs, client', channelOf)
  {
  }

  // ── Blocks ────────────────────────────────────────────────────────────────

  lemma AnnouncedAppend(jobs: seq<Job>, job: Job, id: ContactId)
    ensures Announced(jobs + [job], id) <==> Announced(jobs, id) || job.contact == id
  {
    if Announced(jobs, id) {
      var j :| 0 <= j < |jobs| && jobs[j].contact == id;
      assert (jobs + [job])[j].contact == id;
    }
    assert (jobs + [job])[|jobs|] == job;
  }

  lemma AnnouncedRemove(jobs: seq<Job>, i: nat, id: ContactId)
    requires i < |jobs|
    ensures Announced(jobs, id) && id != jobs[i].contact ==> Announced(RemoveAt(jobs, i), id)
    ensures Announced(RemoveAt(jobs, i), id) ==> Announced(jobs, id)
  {
    if Announced(jobs, id) && id != jobs[i].contact {
      var j :| 0 <= j < |jobs| && jobs[j].contact == id;
      InRemoved(jobs, i, jobs[j]);
      var k :| 0 <= k < |RemoveAt(jobs, i)| && RemoveAt(jobs, i)[k] == jobs[j];
      assert RemoveAt(jobs, i)[k].contact == id;
    }
  }

  lemma ConvergesSingle(s: State, step: Step, channelOf: ContactId -> Channel)
    requires Converging(s, channelOf) && Enabled(s, step) && Orderly(Single(step), channelOf)
    ensures var t := Next(s, step);
            && t.unsent == [] && t.fetches == []
            && forall c :: 0 <= c < |t.clients| ==> ClientConverges(t.contacts, t.jobs, t.clients[c], channelOf)
  {
    var t := Next(s, step);
    forall c | 0 <= c < |t.clients| ensures ClientConverges(t.contacts, t.jobs, t.clients[c], channelOf) {
      assert ClientConverges(s.contacts, s.jobs, s.clients[c], channelOf);
      if step.Message? || step.Announce? {
        var job := if step.Message? then Job(step.contact, false) else step.job;
        forall x ensures Announced(t.jobs, x) <==> Announced(s.jobs, x) || job.contact == x {
          AnnouncedAppend(s.jobs, job, x);
        }
        ConvergesFrame(s.contacts, s.jobs, t.contacts, t.jobs, s.clients[c], channelOf);
      } else if step.NewContact? {
        ConvergesFrame(s.contacts, s.jobs, t.contacts, t.jobs, s.clients[c], channelOf);
      } else if step.DropJob? {
        var i := step.index;
        forall x | x != s.jobs[i].contact ensures Announced(s.jobs, x) ==> Announced(t.jobs, x) {
          AnnouncedRemove(s.jobs, i, x);
        }
        ConvergesFrame(s.contacts, s.jobs, t.contacts, t.jobs, s.clients[c], channelOf);
      } else if step.Deliver? && step.client == c {
        ConvergesDeliver(s.contacts, s.jobs, s.clients[c], channelOf);
      } else {
        ConvergesView(s.contacts, s.jobs, s.clients[c], t.clients[c], channelOf);
      }
    }
  }

  lemma ConvergesBroadcast(s: State, i: nat, p: Payload, channelOf: ContactId -> Channel)
    requires Converging(s, channelOf) && Enabled(s, Snapshot(i, p)) && Orderly(BroadcastNow(i, p), channelOf)
    ensures var t := Next(Next(s, Snapshot(i, p)), Emit(0));
            && t.unsent == [] && t.fetches == []
            && forall c :: 0 <= c < |t.clients| ==> ClientConverges(t.contacts, t.jobs, t.clients[c], channelOf)
  {
    var t := Next(Next(s, Snapshot(i, p)), Emit(0));
    forall id | Announced(s.jobs, id) && id != p.Contact() ensures Announced(t.jobs, id) {
      AnnouncedRemove(s.jobs, i, id);
    }
    forall c | 0 <= c < |t.clients| ensures ClientConverges(t.contacts, t.jobs, t.clients[c], channelOf) {
      ConvergesEmit(s.contacts, s.jobs, t.contacts, t.jobs, s.clients[c], p, channelOf);
    }
  }

  lemma ConvergesMarkRead(s: State, i: nat, channelOf: ContactId -> Channel)
    requires Converging(s, channelOf) && Enabled(s, MarkUpdate(i))
    ensures var t := Next(Next(s, MarkUpdate(i)), Emit(0));
            && t.unsent == [] && t.fetches == []
            && forall c :: 0 <= c < |t.clients| ==> ClientConverges(t.contacts, t.jobs, t.clients[c], channelOf)
  {
    var t := Next(Next(s, MarkUpdate(i)), Emit(0));
    var id := s.handlers[i].contact;
    forall c | 0 <= c < |t.clients| ensures ClientConverges(t.contacts, t.jobs, t.clients[c], channelOf) {
      ConvergesEmit(s.contacts, s.jobs, t.contacts, t.jobs, s.clients[c],
                    Read(ReadPayload(id, s.contacts[id].lastMessageSeq)), channelOf);
    }
  }

  lemma ConvergesFetchNow(s: State, f: Fetch, channelOf: ContactId -> Channel)
    requires Converging(s, channelOf) && Enabled(s, FetchStart(f))
    ensures var t := Next(Next(s, FetchStart(f)), FetchEnd(0));
            && t.unsent == [] && t.fetches == []
            && forall c :: 0 <= c < |t.clients| ==> ClientConverges(t.contacts, t.jobs, t.clients[c], channelOf)
  {
    var t := Next(Next(s, FetchStart(f)), FetchEnd(0));
    forall c | 0 <= c < |t.clients| ensures ClientConverges(t.contacts, t.jobs, t.clients[c], channelOf) {
      assert ClientConverges(s.contacts, s.jobs, s.clients[c], channelOf);
      if c == f.client { ConvergesFetch(s.contacts, s.jobs, s.clients[c], f.key, f.rows, channelOf); }
    }
  }

  lemma ConvergingBlock(s: State, block: Block, channelOf: ContactId -> Channel)
    requires Converging(s, channelOf) && Orderly(block, channelOf) && ValidRun(s, Expand(block))
    ensures Converging(Final(s, Expand(block)), channelOf)
  {
    InvariantRun(s, Expand(block));
    match block
    case Single(step) =>
      assert Final(s, [step]) == Next(s, step);
      ConvergesSingle(s, step, channelOf);
    case BroadcastNow(i, p) =>
      TwoSteps(s, Snapshot(i, p), Emit(0));
      ConvergesBroadcast(s, i, p, channelOf);
    case MarkReadNow(i) =>
      TwoSteps(s, MarkUpdate(i), Emit(0));
      ConvergesMarkRead(s, i, channelOf);
    case FetchNow(f) =>
      TwoSteps(s, FetchStart(f), FetchEnd(0));
      ConvergesFetchNow(s, f, channelOf);
  }

  lemma TwoSteps(s: State, a: Step, b: Step)
    requires ValidRun(s, [a, b])
    ensures Enabled(s, a) && Enabled(Next(s, a), b) && Final(s, [a, b]) == Next(Next(s, a), b)
  {
    assert [a, b][1..] == [b] && [b][1..] == [];
    assert Final(Next(s, a), [b]) == Next(Next(s, a), b);
  }

  lemma {:induction false} ConvergingRun(s: State, blocks: seq<Block>, channelOf: ContactId -> Channel)
    requires Converging(s, channelOf) && OrderlyRun(s, blocks, channelOf)
    ensures Converging(OrderlyFinal(s, blocks, channelOf), channelOf)
    decreases |blocks|
  {
    if blocks != [] {
      ConvergingBlock(s, blocks[0], channelOf);
      ConvergingRun(Final(s, Expand(blocks[0])), blocks[1..], channelOf);
    }
  }

  // ── Orderly runs are runs ─────────────────────────────────────────────────

  function Flatten(blocks: seq<Block>): seq<Step> {
    if blocks == [] then [] else Expand(blocks[0]) + Flatten(blocks[1..])
  }

  lemma {:induction false} RunsCompose(s: State, first: seq<Step>, second: seq<Step>)
    requires ValidRun(s, first) && ValidRun(Final(s, first), second)
    ensures ValidRun(s, first + second) && Final(s, first + second) == Final(Final(s, first), second)
    decreases |first|
  {
    hide Next, Enabled;
    if first == [] {
      assert first + second == second;
    } else {
      var rest, t := first[1..], Next(s, first[0]);
      RunsCompose(t, rest, second);
      assert (first + second)[1..] == rest + second && (first + second)[0] == first[0];
      assert Final(s, first) == Final(t, rest);
    }
  }

  /** The orderly system refines the general one: each of its runs is a run of single steps. */
  lemma {:induction false} OrderlyRefines(s: State, blocks: seq<Block>, channelOf: ContactId -> Channel)
    requires OrderlyRun(s, blocks, channelOf)
    ensures ValidRun(s, Flatten(blocks)) && Final(s, Flatten(blocks)) == OrderlyFinal(s, blocks, channelOf)
    decreases |blocks|
  {
    if blocks != [] {
      OrderlyRefines(Final(s, Expand(blocks[0])), blocks[1..], channelOf);
      RunsCompose(s, Expand(blocks[0]), Flatten(blocks[1..]));
    }
  }

  // ── Main results ──────────────────────────────────────────────────────────

  /**
   * Convergence. On every orderly run, a client whose queue is empty shows the server's watermark in
   * every row of every list, and the server's counter in every row of the contact's own list once no
   * broadcast for the contact is still to run. Both halves together make the badge the server's.
   */
  lemma Convergence(s: State, blocks: seq<Block>, channelOf: ContactId -> Channel, c: nat, key: QueryKey,
                    row: Conversation)
    requires Init(s) && OrderlyRun(s, blocks, channelOf)
    requires var t := OrderlyFinal(s, blocks, channelOf);
             c < |t.clients| && t.clients[c].inbox == [] && key in t.clients[c].cache && row in t.clients[c].cache[key]
    ensures var t := OrderlyFinal(s, blocks, channelOf);
            && row.contactId in t.contacts
            && row.lastReadSeq == t.contacts[row.contactId].lastReadSeq
            && (key == Home(channelOf, row.contactId) && !Announced(t.jobs, row.contactId) ==>
                  row.lastMessageSeq == t.contacts[row.contactId].lastMessageSeq)
  {
    InitIsSafe(s);
    ConvergingRun(s, blocks, channelOf);
    var t := OrderlyFinal(s, blocks, channelOf);
    assert RowSettles(t.contacts, t.jobs, t.clients[c].inbox, key, row, channelOf);
  }

  /** Nothing is in flight and no effect is due. */
  ghost predicate Quiet(s: State) {
    && s.jobs == [] && s.unsent == [] && s.marks == [] && s.handlers == [] && s.fetches == []
    && forall c :: 0 <= c < |s.clients| ==> s.clients[c].inbox == [] && !s.clients[c].scheduled
  }

  /**
   * Quiescence. When an orderly run has come to rest, a contact open and visible in any view that has
   * its row loaded is read: unread is 0 on the server and on the contact's own list at every client.
   */
  lemma QuietMeansRead(s: State, blocks: seq<Block>, channelOf: ContactId -> Channel, viewer: nat, id: ContactId)
    requires Init(s) && OrderlyRun(s, blocks, channelOf) && channelOf(id) == WHATSAPP
    requires var t := OrderlyFinal(s, blocks, channelOf);
             && Quiet(t) && viewer < |t.clients|
             && t.clients[viewer].open == Some(id) && t.clients[viewer].visible
             && RowSeq(t.clients[viewer].cache, Some(id)).Some?
    ensures var t := OrderlyFinal(s, blocks, channelOf);
            && id in t.contacts && t.contacts[id].lastReadSeq == t.contacts[id].lastMessageSeq
            && Badge(t.contacts[id].lastMessageSeq, t.contacts[id].lastReadSeq) == 0
            && forall c, row :: 0 <= c < |t.clients| && Home(channelOf, id) in t.clients[c].cache
                                && row in t.clients[c].cache[Home(channelOf, id)] && row.contactId == id ==>
                 row.lastReadSeq == row.lastMessageSeq && Badge(row.lastMessageSeq, row.lastReadSeq) == 0
  {
    InitIsSafe(s);
    ConvergingRun(s, blocks, channelOf);
    var t := OrderlyFinal(s, blocks, channelOf);
    var client := t.clients[viewer];
    var list := client.cache[ByChannel(WHATSAPP)];
    var row := list[FindIndex(list, id)];
    assert row in list;
    assert RowSettles(t.contacts, t.jobs, client.inbox, ByChannel(WHATSAPP), row, channelOf);
    assert !Marks(client);
    assert row.lastMessageSeq <= Marked(client.guards, id);
    if id in client.guards {
      assert !MarkPending(t, viewer, id);
      assert client.guards[id] <= t.contacts[id].lastReadSeq;
    }
    forall c, row' | 0 <= c < |t.clients| && Home(channelOf, id) in t.clients[c].cache
                     && row' in t.clients[c].cache[Home(channelOf, id)] && row'.contactId == id
      ensures Badge(row'.lastMessageSeq, row'.lastReadSeq) == 0
    {
      assert RowSettles(t.contacts, t.jobs, t.clients[c].inbox, Home(channelOf, id), row', channelOf);
    }
  }

  // ── What the assumptions are for ──────────────────────────────────────────

  /**
   * Delivery order decides what the row shows. Of two updates of one contact, delivering the later
   * one first leaves the older counters in place, because rows are overwritten, not maximized.
   */
  lemma LastDeliveryDecides(client: Client, first: UpdatedPayload, second: UpdatedPayload, row: Conversation)
    requires client.inbox == [Updated(first), Updated(second)]
    requires first.contactId == second.contactId && first.lastMessageChannel == second.lastMessageChannel
    requires var key := ByChannel(first.lastMessageChannel);
             key in client.cache && Unique(client.cache[key]) && row.contactId == first.contactId
    ensures var key := ByChannel(first.lastMessageChannel);
            && (row in Delivered(Delivered(client, 0), 0).cache[key] ==> row.lastMessageSeq == second.lastMessageSeq)
            && (row in Delivered(Delivered(client, 1), 0).cache[key] ==> row.lastMessageSeq == first.lastMessageSeq)
  {
    var key := ByChannel(first.lastMessageChannel);
    var list := client.cache[key];
    PatchedUnique(key, list, Updated(first));
    PatchedUnique(key, list, Updated(second));
    assert RemoveAt(client.inbox, 0) == [Updated(second)];
    assert RemoveAt(client.inbox, 1) == [Updated(first)];
    PatchedRows(key, PatchList(key, list, Updated(first)), Updated(second));
    PatchedRows(key, PatchList(key, list, Updated(second)), Updated(first));
  }
}
