/**
 * Lists other than the contact's own, the unified list above all: on orderly runs no message event
 * reaches them, so a row lags behind the server by the messages since its list was fetched.
 */
module OtherLists {
  import opened Options
  import opened SocketEvents
  import opened CachePatch
  import opened ReadProtocol
  import opened ReadConvergence

  // ── What a run does to one list, stated on its blocks alone ───────────────

  predicate Refetches(block: Block, c: nat, key: QueryKey) {
    block.FetchNow? && block.fetch.client == c && block.fetch.key == key
  }

  predicate Fetched(blocks: seq<Block>, c: nat, key: QueryKey) {
    blocks != [] && (Refetches(blocks[0], c, key) || Fetched(blocks[1..], c, key))
  }

  function MessageCount(block: Block, id: ContactId): nat {
    if block == Single(Message(id)) then 1 else 0
  }

  /** The contact's messages since the client last fetched the list, all of them when it never did. */
  function MessagesSince(blocks: seq<Block>, c: nat, key: QueryKey, id: ContactId): nat {
    if blocks == [] then 0
    else
      var since := MessagesSince(blocks[1..], c, key, id);
      if Fetched(blocks[1..], c, key) then since else since + MessageCount(blocks[0], id)
  }

  // ── One block ─────────────────────────────────────────────────────────────

  predicate GoesHome(p: Payload, channelOf: ContactId -> Channel) {
    p.Read? || TargetKey(p) == Some(Home(channelOf, p.Contact()))
  }

  /** Every message event on its way patches its contact's own list. */
  ghost predicate QueuesGoHome(s: State, channelOf: ContactId -> Channel) {
    && AllGoHome(s.unsent, channelOf)
    && forall c :: 0 <= c < |s.clients| ==> AllGoHome(s.clients[c].inbox, channelOf)
  }

  ghost predicate AllGoHome(queue: seq<Payload>, channelOf: ContactId -> Channel) {
    forall p :: p in queue ==> GoesHome(p, channelOf)
  }

  ghost predicate Lists(rows: seq<Conversation>, id: ContactId, messageSeq: int) {
    exists row :: row in rows && row.contactId == id && row.lastMessageSeq == messageSeq
  }

  /** No row of a contact at home elsewhere entered the list or changed its message counter. */
  ghost predicate KeepsForeignRows(before: Cache, after: Cache, key: QueryKey, channelOf: ContactId -> Channel) {
    key in after ==>
      && key in before
      && forall row :: row in after[key] && key != Home(channelOf, row.contactId) ==>
           Lists(before[key], row.contactId, row.lastMessageSeq)
  }

  lemma PatchKeepsForeignRows(cache: Cache, p: Payload, key: QueryKey, channelOf: ContactId -> Channel)
    requires GoesHome(p, channelOf) && (key in cache ==> Unique(cache[key]))
    ensures KeepsForeignRows(cache, Patch(cache, p), key, channelOf)
  {
    if key in cache {
      PatchedRows(key, cache[key], p);
      forall row | row in PatchList(key, cache[key], p) && key != Home(channelOf, row.contactId)
        ensures Lists(cache[key], row.contactId, row.lastMessageSeq)
      {
        assert RowOrigin(key, cache[key], p, row);
        if row !in cache[key] {
          var prior :| prior in cache[key] && row == prior.(lastReadSeq := p.read.lastReadSeq);
        }
      }
    }
  }

  /** One step of the general system, but for the end of a fetch of this very list. */
  lemma ForeignRowsStep(s: State, step: Step, c: nat, key: QueryKey, channelOf: ContactId -> Channel)
    requires Safe(s) && QueuesGoHome(s, channelOf) && Enabled(s, step) && c < |s.clients|
    requires step.FetchEnd? ==> s.fetches[step.index].client != c || s.fetches[step.index].key != key
    ensures |Next(s, step).clients| == |s.clients|
    ensures KeepsForeignRows(s.clients[c].cache, Next(s, step).clients[c].cache, key, channelOf)
  {
    var client := s.clients[c];
    assert ClientBounded(s.contacts, client);
    if step.Deliver? && step.client == c {
      assert key in client.cache ==> ListBounded(s.contacts, client.cache[key]);
      assert client.inbox[step.index] in client.inbox;
      PatchKeepsForeignRows(client.cache, client.inbox[step.index], key, channelOf);
    }
  }

  lemma QueuesStep(s: State, step: Step, channelOf: ContactId -> Channel)
    requires QueuesGoHome(s, channelOf) && Enabled(s, step) && (step.Snapshot? ==> GoesHome(step.payload, channelOf))
    ensures QueuesGoHome(Next(s, step), channelOf)
  {
    hide GoesHome;
    var t := Next(s, step);
    if step.MarkUpdate? { ReadGoesHome(t.unsent[|t.unsent| - 1], channelOf); }
    if step.Emit? { assert s.unsent[step.index] in s.unsent; }
    forall c | 0 <= c < |t.clients| ensures AllGoHome(t.clients[c].inbox, channelOf) {
      assert AllGoHome(s.clients[c].inbox, channelOf);
      if step.Duplicate? && step.client == c { assert s.clients[c].inbox[step.index] in s.clients[c].inbox; }
    }
  }

  lemma ReadGoesHome(p: Payload, channelOf: ContactId -> Channel)
    requires p.Read?
    ensures GoesHome(p, channelOf)
  {
  }

  /** A step adds to a contact's counter only when it is a message of that contact. */
  lemma CounterStep(s: State, step: Step, id: ContactId)
    requires Enabled(s, step) && id in s.contacts
    ensures id in Next(s, step).contacts
    ensures Next(s, step).contacts[id].lastMessageSeq ==
              s.contacts[id].lastMessageSeq + (if step == Message(id) then 1 else 0)
  {
  }

  lemma BlockSteps(s: State, block: Block, channelOf: ContactId -> Channel) returns (u: State)
    requires Converging(s, channelOf) && Orderly(block, channelOf) && ValidRun(s, Expand(block))
    ensures u == Final(s, Expand(block)) && Enabled(s, Expand(block)[0])
    ensures block.Single? ==> u == Next(s, block.step)
    ensures !block.Single? ==>
              Enabled(Next(s, Expand(block)[0]), Expand(block)[1])
                && u == Next(Next(s, Expand(block)[0]), Expand(block)[1])
  {
    u := Final(s, Expand(block));
    if block.Single? {
      assert Final(s, [block.step]) == Next(s, block.step);
    } else {
      assert Expand(block) == [Expand(block)[0], Expand(block)[1]];
      TwoSteps(s, Expand(block)[0], Expand(block)[1]);
    }
  }

  lemma QueuesBlock(s: State, block: Block, channelOf: ContactId -> Channel)
    requires Converging(s, channelOf) && QueuesGoHome(s, channelOf) && Orderly(block, channelOf)
              && ValidRun(s, Expand(block))
    ensures QueuesGoHome(Final(s, Expand(block)), channelOf)
  {
    var u := BlockSteps(s, block, channelOf);
    QueuesStep(s, Expand(block)[0], channelOf);
    if !block.Single? { QueuesStep(Next(s, Expand(block)[0]), Expand(block)[1], channelOf); }
  }

  lemma CounterBlock(s: State, block: Block, channelOf: ContactId -> Channel, id: ContactId)
    requires Converging(s, channelOf) && Orderly(block, channelOf) && ValidRun(s, Expand(block)) && id in s.contacts
    ensures var u := Final(s, Expand(block));
            id in u.contacts && u.contacts[id].lastMessageSeq == s.contacts[id].lastMessageSeq + MessageCount(block, id)
  {
    var u := BlockSteps(s, block, channelOf);
    CounterStep(s, Expand(block)[0], id);
    if !block.Single? { CounterStep(Next(s, Expand(block)[0]), Expand(block)[1], id); }
  }

  lemma ForeignRowsBlock(s: State, block: Block, channelOf: ContactId -> Channel, c: nat, key: QueryKey)
    requires Converging(s, channelOf) && QueuesGoHome(s, channelOf) && Orderly(block, channelOf)
              && ValidRun(s, Expand(block))
    requires c < |s.clients| && !Refetches(block, c, key)
    ensures var u := Final(s, Expand(block));
            |u.clients| == |s.clients| && KeepsForeignRows(s.clients[c].cache, u.clients[c].cache, key, channelOf)
  {
    var u := BlockSteps(s, block, channelOf);
    var first := Expand(block)[0];
    ForeignRowsStep(s, first, c, key, channelOf);
    if !block.Single? {
      var mid := Next(s, first);
      SafeStep(s, first);
      QueuesStep(s, first, channelOf);
      assert mid.clients[c].cache == s.clients[c].cache;
      ForeignRowsStep(mid, Expand(block)[1], c, key, channelOf);
    }
  }

  /** A fetched list shows the server's counters. */
  lemma RefetchedRows(s: State, block: Block, channelOf: ContactId -> Channel, c: nat, key: QueryKey, row: Conversation)
    requires Converging(s, channelOf) && Orderly(block, channelOf) && ValidRun(s, Expand(block))
              && Refetches(block, c, key)
    requires var u := Final(s, Expand(block));
             c < |u.clients| && key in u.clients[c].cache && row in u.clients[c].cache[key]
    ensures var u := Final(s, Expand(block));
            row.contactId in u.contacts && row.lastMessageSeq == u.contacts[row.contactId].lastMessageSeq
  {
    var u := BlockSteps(s, block, channelOf);
  }

  // ── Whole runs ────────────────────────────────────────────────────────────

  /** How far the row is behind after the run: since its list was fetched, or since the run began. */
  ghost predicate Lags(s: State, blocks: seq<Block>, channelOf: ContactId -> Channel, c: nat, key: QueryKey,
                       row: Conversation)
    requires OrderlyRun(s, blocks, channelOf)
  {
    var t, id := OrderlyFinal(s, blocks, channelOf), row.contactId;
    && id in t.contacts
    && if Fetched(blocks, c, key)
       then t.contacts[id].lastMessageSeq == row.lastMessageSeq + MessagesSince(blocks, c, key, id)
       else
         && c < |s.clients| && key in s.clients[c].cache && Lists(s.clients[c].cache[key], id, row.lastMessageSeq)
         && id in s.contacts
         && t.contacts[id].lastMessageSeq == s.contacts[id].lastMessageSeq + MessagesSince(blocks, c, key, id)
  }

  lemma {:induction false} ForeignRowLags(s: State, blocks: seq<Block>, channelOf: ContactId -> Channel, c: nat,
                                          key: QueryKey,
                                          row: Conversation)
    requires Converging(s, channelOf) && QueuesGoHome(s, channelOf) && OrderlyRun(s, blocks, channelOf)
    requires var t := OrderlyFinal(s, blocks, channelOf);
             c < |t.clients| && key in t.clients[c].cache && row in t.clients[c].cache[key]
    requires key != Home(channelOf, row.contactId)
    ensures Lags(s, blocks, channelOf, c, key, row)
    decreases |blocks|
  {
    if blocks == [] {
      assert ClientConverges(s.contacts, s.jobs, s.clients[c], channelOf);
      assert RowSettles(s.contacts, s.jobs, s.clients[c].inbox, key, row, channelOf);
      assert Lists(s.clients[c].cache[key], row.contactId, row.lastMessageSeq);
    } else {
      var u, rest := Final(s, Expand(blocks[0])), blocks[1..];
      ConvergingBlock(s, blocks[0], channelOf);
      QueuesBlock(s, blocks[0], channelOf);
      ForeignRowLags(u, rest, channelOf, c, key, row);
      if !Fetched(rest, c, key) { FirstBlockLags(s, blocks, channelOf, c, key, row); }
    }
  }

  lemma FirstBlockLags(s: State, blocks: seq<Block>, channelOf: ContactId -> Channel, c: nat, key: QueryKey,
                       row: Conversation)
    requires Converging(s, channelOf) && QueuesGoHome(s, channelOf) && OrderlyRun(s, blocks, channelOf) && blocks != []
    requires key != Home(channelOf, row.contactId) && !Fetched(blocks[1..], c, key)
    requires Lags(Final(s, Expand(blocks[0])), blocks[1..], channelOf, c, key, row)
    ensures Lags(s, blocks, channelOf, c, key, row)
  {
    var u, id := Final(s, Expand(blocks[0])), row.contactId;
    var prior :| prior in u.clients[c].cache[key] && prior.contactId == id
        && prior.lastMessageSeq == row.lastMessageSeq;
    if Refetches(blocks[0], c, key) {
      RefetchedRows(s, blocks[0], channelOf, c, key, prior);
    } else {
      ClientCount(s, blocks[0], channelOf);
      ForeignRowsBlock(s, blocks[0], channelOf, c, key);
      var earlier :| earlier in s.clients[c].cache[key] && earlier.contactId == id
          && earlier.lastMessageSeq == row.lastMessageSeq;
      assert RowSettles(s.contacts, s.jobs, s.clients[c].inbox, key, earlier, channelOf);
      CounterBlock(s, blocks[0], channelOf, id);
    }
  }

  lemma ClientCount(s: State, block: Block, channelOf: ContactId -> Channel)
    requires Converging(s, channelOf) && Orderly(block, channelOf) && ValidRun(s, Expand(block))
    ensures |Final(s, Expand(block)).clients| == |s.clients|
  {
    var u := BlockSteps(s, block, channelOf);
  }

  /**
   * On every orderly run, a row of a list that is not its contact's own, the unified list included, is
   * behind the server by exactly the contact's messages since the list was fetched: it shows the
   * server's counter if and only if there were none.
   */
  lemma OtherListsLag(s: State, blocks: seq<Block>, channelOf: ContactId -> Channel, c: nat, key: QueryKey,
                      row: Conversation)
    requires Init(s) && OrderlyRun(s, blocks, channelOf)
    requires var t := OrderlyFinal(s, blocks, channelOf);
             c < |t.clients| && key in t.clients[c].cache && row in t.clients[c].cache[key]
    requires key != Home(channelOf, row.contactId)
    ensures var t, missed := OrderlyFinal(s, blocks, channelOf), MessagesSince(blocks, c, key, row.contactId);
            && Fetched(blocks, c, key)
            && row.contactId in t.contacts
            && t.contacts[row.contactId].lastMessageSeq == row.lastMessageSeq + missed
            && (row.lastMessageSeq == t.contacts[row.contactId].lastMessageSeq <==> missed == 0)
  {
    InitIsSafe(s);
    ForeignRowLags(s, blocks, channelOf, c, key, row);
  }
}
