/**
 * The read-mark feedback loop comes to rest: once messages, user actions and new fetches stop, every
 * run of the protocol is finite, with an explicit bound, however its steps are interleaved.
 */
module ReadTermination {
  import opened Options
  import opened SocketEvents
  import opened CachePatch
  import opened ReadGateway
  import opened ChatView
  import opened ReadProtocol
  import opened ReadConvergence

  /** Steps the system takes on its own. */
  predicate Internal(step: Step) {
    || step.Snapshot? || step.DropJob? || step.Emit? || step.MarkArrive? || step.MarkUpdate?
    || step.Deliver? || step.Lose? || step.FetchEnd? || step.RunEffect?
  }

  ghost predicate InternalRun(s: State, steps: seq<Step>) {
    ValidRun(s, steps) && forall i :: 0 <= i < |steps| ==> Internal(steps[i])
  }

  // ── How far the guards may still rise ─────────────────────────────────────

  ghost function Pick(ids: set<ContactId>): ContactId
    requires ids != {}
    ensures Pick(ids) in ids
  {
    var id :| id in ids;
    id
  }

  function Rise(seqs: map<ContactId, nat>, guards: Guards, id: ContactId): nat
    requires id in seqs
  {
    if seqs[id] > Marked(guards, id) then seqs[id] - Marked(guards, id) else 0
  }

  ghost function Gap(seqs: map<ContactId, nat>, guards: Guards, ids: set<ContactId>): nat
    requires ids <= seqs.Keys
  {
    if ids == {} then 0 else Rise(seqs, guards, Pick(ids)) + Gap(seqs, guards, ids - {Pick(ids)})
  }

  /** Raising one guard closes the gap by at least one. */
  lemma {:induction false} RaisedGuardClosesGap(seqs: map<ContactId, nat>, guards: Guards, ids: set<ContactId>,
                                                id: ContactId, value: int)
    requires ids <= seqs.Keys && id in seqs && Marked(guards, id) < value <= seqs[id]
    ensures Gap(seqs, guards[id := value], ids) + (if id in ids then 1 else 0) <= Gap(seqs, guards, ids)
  {
    if ids != {} {
      RaisedGuardClosesGap(seqs, guards, ids - {Pick(ids)}, id, value);
    }
  }

  ghost function MessageSeqs(contacts: Contacts): map<ContactId, nat> {
    map id | id in contacts :: contacts[id].lastMessageSeq
  }

  // ── The potential ─────────────────────────────────────────────────────────

  /** k entries at the same cost: cost * k, by repeated addition, which keeps the proofs linear. */
  function Times(cost: nat, k: nat): nat
    decreases k
  {
    if k == 0 then 0 else Times(cost, k - 1) + cost
  }

  lemma {:induction false} TimesGrows(cost: nat, j: nat, k: nat)
    requires j < k
    ensures Times(cost, j) + cost <= Times(cost, k)
  {
    if j + 1 < k { TimesGrows(cost, j, k - 1); }
  }

  /** Work one client may still cause, in marks it may send, payloads it must take and effects due. */
  ghost function ClientWork(seqs: map<ContactId, nat>, client: Client, markCost: nat): nat {
    Times(markCost, Gap(seqs, client.guards, seqs.Keys)) + 2 * |client.inbox| + (if client.scheduled then 1 else 0)
  }

  ghost function ClientsWork(seqs: map<ContactId, nat>, clients: seq<Client>, markCost: nat): nat {
    if clients == [] then 0
    else ClientsWork(seqs, clients[..|clients| - 1], markCost) + ClientWork(seqs, clients[|clients| - 1], markCost)
  }

  /**
   * The queues weighed by what each entry may still cause: a mark comes to a handler, that to a payload, that
   * to every client.
   */
  function Queued(n: nat, marks: nat, handlers: nat, jobs: nat, unsent: nat, fetches: nat): nat {
    Times(2 * n + 3, marks) + Times(2 * n + 2, handlers) + Times(2 * n + 2, jobs) + Times(2 * n + 1, unsent)
      + 2 * fetches
  }

  /** Every internal step lowers this number. */
  ghost function Potential(s: State): nat {
    ClientsWork(MessageSeqs(s.contacts), s.clients, 2 * |s.clients| + 3) + InQueues(s)
  }

  ghost function InQueues(s: State): nat {
    Queued(|s.clients|, |s.marks|, |s.handlers|, |s.jobs|, |s.unsent|, |s.fetches|)
  }

  /** Passing an entry on from one queue to the next, or dropping it, lowers the weight. */
  lemma QueuedLowers(n: nat, marks: nat, handlers: nat, jobs: nat, unsent: nat, fetches: nat)
    ensures var q := Queued(n, marks, handlers, jobs, unsent, fetches);
            && (marks > 0 ==> Queued(n, marks - 1, handlers + 1, jobs, unsent, fetches) < q)
            && (marks > 0 ==> Queued(n, marks - 1, handlers, jobs, unsent, fetches) < q)
            && (handlers > 0 ==> Queued(n, marks, handlers - 1, jobs, unsent + 1, fetches) < q)
            && (jobs > 0 ==> Queued(n, marks, handlers, jobs - 1, unsent + 1, fetches) < q)
            && (jobs > 0 ==> Queued(n, marks, handlers, jobs - 1, unsent, fetches) < q)
            && (unsent > 0 ==> Queued(n, marks, handlers, jobs, unsent - 1, fetches) + 2 * n < q)
            && (fetches > 0 ==> Queued(n, marks, handlers, jobs, unsent, fetches - 1) + 2 == q)
            && Queued(n, marks + 1, handlers, jobs, unsent, fetches) == q + 2 * n + 3
  {
  }

  lemma {:induction false} OneClientChanges(seqs: map<ContactId, nat>, clients: seq<Client>, c: nat, client: Client,
                                            cost: nat)
    requires c < |clients|
    ensures ClientsWork(seqs, clients[c := client], cost) + ClientWork(seqs, clients[c], cost)
         == ClientsWork(seqs, clients, cost) + ClientWork(seqs, client, cost)
  {
    var n := |clients| - 1;
    if c == n {
      assert clients[c := client][..n] == clients[..n];
    } else {
      OneClientChanges(seqs, clients[..n], c, client, cost);
      assert clients[c := client][..n] == clients[..n][c := client];
    }
  }

  lemma {:induction false} BroadcastCost(seqs: map<ContactId, nat>, clients: seq<Client>, p: Payload, cost: nat)
    ensures ClientsWork(seqs, Broadcast(clients, p), cost) == ClientsWork(seqs, clients, cost) + 2 * |clients|
  {
    if clients != [] {
      var n := |clients| - 1;
      BroadcastCost(seqs, clients[..n], p, cost);
      assert Broadcast(clients, p)[..n] == Broadcast(clients[..n], p);
    }
  }

  /** One client and the queues changed: it is enough to weigh these. */
  lemma OneClientLowers(s: State, t: State, c: nat)
    requires c < |s.clients| == |t.clients| && t.contacts == s.contacts && t.clients == s.clients[c := t.clients[c]]
    requires var seqs, cost := MessageSeqs(s.contacts), 2 * |s.clients| + 3;
             ClientWork(seqs, t.clients[c], cost) + InQueues(t) < ClientWork(seqs, s.clients[c], cost) + InQueues(s)
    ensures Potential(t) < Potential(s)
  {
    OneClientChanges(MessageSeqs(s.contacts), s.clients, c, t.clients[c], 2 * |s.clients| + 3);
  }

  /** A client that keeps its guards takes one payload, or stores one list: at most one effect becomes due. */
  lemma CacheWork(seqs: map<ContactId, nat>, before: Client, after: Client, cost: nat, taken: nat)
    requires after.guards == before.guards && |after.inbox| + taken == |before.inbox|
    ensures ClientWork(seqs, after, cost) + 2 * taken <= ClientWork(seqs, before, cost) + 1
  {
  }

  /** Taking a payload or a list can at most make one effect due. */
  lemma CacheStepLowers(s: State, step: Step)
    requires Enabled(s, step) && (step.Deliver? || step.Lose? || step.FetchEnd?)
    ensures Potential(Next(s, step)) < Potential(s)
  {
    hide Times, Queued;
    var t := Next(s, step);
    var c := if step.FetchEnd? then s.fetches[step.index].client else step.client;
    CacheWork(MessageSeqs(s.contacts), s.clients[c], t.clients[c], 2 * |s.clients| + 3,
              if step.FetchEnd? then 0 else 1);
    assert InQueues(t) + (if step.FetchEnd? then 2 else 0) == InQueues(s) by {
      QueuedLowers(|s.clients|, |s.marks|, |s.handlers|, |s.jobs|, |s.unsent|, |s.fetches|);
    }
    OneClientLowers(s, t, c);
  }

  /** A read:mark is paid for by raising a guard towards the server's counter. */
  lemma MarkIsPaidFor(contacts: Contacts, client: Client)
    requires ClientBounded(contacts, client) && Marks(client)
    ensures var seqs := MessageSeqs(contacts);
            Gap(seqs, AfterEffect(client).guards, seqs.Keys) + 1 <= Gap(seqs, client.guards, seqs.Keys)
  {
    var id, value := client.open.value, RowSeq(client.cache, client.open).value;
    EffectBounded(contacts, client);
    assert GuardsBounded(contacts, AfterEffect(client).guards) && id in AfterEffect(client).guards;
    RaisedGuardClosesGap(MessageSeqs(contacts), client.guards, MessageSeqs(contacts).Keys, id, value);
  }

  lemma EffectWork(contacts: Contacts, client: Client, cost: nat)
    requires ClientBounded(contacts, client) && client.scheduled
    ensures ClientWork(MessageSeqs(contacts), AfterEffect(client), cost) + (if Marks(client) then cost else 0)
          < ClientWork(MessageSeqs(contacts), client, cost)
  {
    if Marks(client) {
      var seqs := MessageSeqs(contacts);
      MarkIsPaidFor(contacts, client);
      TimesGrows(cost, Gap(seqs, AfterEffect(client).guards, seqs.Keys), Gap(seqs, client.guards, seqs.Keys));
    }
  }

  lemma EffectLowers(s: State, c: nat)
    requires Safe(s) && Enabled(s, RunEffect(c))
    ensures Potential(Next(s, RunEffect(c))) < Potential(s)
  {
    hide Times, Queued;
    var t, cost := Next(s, RunEffect(c)), 2 * |s.clients| + 3;
    assert ClientBounded(s.contacts, s.clients[c]);
    EffectWork(s.contacts, s.clients[c], cost);
    assert InQueues(t) == InQueues(s) + (if Marks(s.clients[c]) then cost else 0) by {
      QueuedLowers(|s.clients|, |s.marks|, |s.handlers|, |s.jobs|, |s.unsent|, |s.fetches|);
    }
    OneClientLowers(s, t, c);
  }

  lemma EmitLowers(s: State, i: nat)
    requires Enabled(s, Emit(i))
    ensures Potential(Next(s, Emit(i))) < Potential(s)
  {
    hide Times, Queued;
    BroadcastCost(MessageSeqs(s.contacts), s.clients, s.unsent[i], 2 * |s.clients| + 3);
    assert InQueues(Next(s, Emit(i))) + 2 * |s.clients| < InQueues(s) by {
      QueuedLowers(|s.clients|, |s.marks|, |s.handlers|, |s.jobs|, |s.unsent|, |s.fetches|);
    }
  }

  lemma QueueStepLowers(s: State, step: Step)
    requires Enabled(s, step) && (step.Snapshot? || step.DropJob? || step.MarkArrive? || step.MarkUpdate?)
    ensures Potential(Next(s, step)) < Potential(s)
  {
    hide Times, Queued;
    var t := Next(s, step);
    assert MessageSeqs(t.contacts) == MessageSeqs(s.contacts);
    assert InQueues(t) < InQueues(s) by {
      QueuedLowers(|s.clients|, |s.marks|, |s.handlers|, |s.jobs|, |s.unsent|, |s.fetches|);
    }
  }

  lemma InternalStepLowers(s: State, step: Step)
    requires Safe(s) && Enabled(s, step) && Internal(step)
    ensures Potential(Next(s, step)) < Potential(s)
  {
    if step.Emit? {
      EmitLowers(s, step.index);
    } else if step.RunEffect? {
      EffectLowers(s, step.client);
    } else if step.Deliver? || step.Lose? || step.FetchEnd? {
      CacheStepLowers(s, step);
    } else {
      QueueStepLowers(s, step);
    }
  }

  /** Every run of internal steps is at most as long as the potential of the state it starts from. */
  lemma {:induction false} FeedbackLoopTerminates(s: State, steps: seq<Step>)
    requires Safe(s) && InternalRun(s, steps)
    ensures |steps| <= Potential(s)
    decreases |steps|
  {
    if steps != [] {
      SafeStep(s, steps[0]);
      InternalStepLowers(s, steps[0]);
      FeedbackLoopTerminates(Next(s, steps[0]), steps[1..]);
    }
  }

  /** Until everything is at rest, the system can take another step. */
  lemma CanStepUnlessQuiet(s: State) returns (step: Step)
    requires Safe(s) && !Quiet(s)
    ensures Internal(step) && Enabled(s, step)
  {
    if s.jobs != [] {
      var job := s.jobs[0];
      if job.contact !in s.contacts {
        step := DropJob(0);
      } else {
        var k := s.contacts[job.contact];
        step := Snapshot(0,
          if job.isNew
          then New(NewPayload(job.contact, "", None, None, None, "", "", "", WHATSAPP, INBOUND,
                              k.lastMessageSeq, k.lastReadSeq))
          else Updated(UpdatedPayload(job.contact, "", "", WHATSAPP, INBOUND, k.lastMessageSeq, k.lastReadSeq, "")));
      }
    } else if s.unsent != [] {
      step := Emit(0);
    } else if s.marks != [] {
      step := MarkArrive(0);
    } else if s.handlers != [] {
      step := MarkUpdate(0);
    } else if s.fetches != [] {
      step := FetchEnd(0);
    } else {
      var c :| 0 <= c < |s.clients| && (s.clients[c].inbox != [] || s.clients[c].scheduled);
      step := if s.clients[c].inbox != [] then Deliver(c, 0) else RunEffect(c);
    }
  }

  /** Left alone, the protocol comes to rest within its potential. */
  lemma {:induction false} ComesToRest(s: State) returns (steps: seq<Step>)
    requires Safe(s)
    ensures InternalRun(s, steps) && |steps| <= Potential(s) && Quiet(Final(s, steps))
    decreases Potential(s)
  {
    if Quiet(s) {
      steps := [];
    } else {
      var step := CanStepUnlessQuiet(s);
      SafeStep(s, step);
      InternalStepLowers(s, step);
      var rest := ComesToRest(Next(s, step));
      steps := [step] + rest;
      assert steps[1..] == rest;
    }
  }

  // ── An open chat gets read ────────────────────────────────────────────────

  /** The viewer has the contact open and visible, with its row loaded. */
  ghost predicate Watching(s: State, viewer: nat, id: ContactId) {
    && viewer < |s.clients|
    && s.clients[viewer].open == Some(id) && s.clients[viewer].visible
    && RowSeq(s.clients[viewer].cache, Some(id)).Some?
  }

  ghost predicate InternalBlock(block: Block) {
    (block.Single? ==> Internal(block.step)) && !block.FetchNow?
  }

  /** Until everything is at rest, the orderly system can take another step of its own. */
  lemma OrderlyStepUnlessQuiet(s: State, channelOf: ContactId -> Channel) returns (block: Block)
    requires Converging(s, channelOf) && !Quiet(s)
    ensures InternalBlock(block) && Orderly(block, channelOf) && ValidRun(s, Expand(block))
  {
    if s.jobs != [] {
      var job := s.jobs[0];
      if job.contact !in s.contacts {
        block := Single(DropJob(0));
      } else {
        var k, ch := s.contacts[job.contact], channelOf(job.contact);
        var p := if job.isNew
                 then New(NewPayload(job.contact, "", None, Some(ch), None, "", "", "", ch, INBOUND,
                                     k.lastMessageSeq, k.lastReadSeq))
                 else Updated(UpdatedPayload(job.contact, "", "", ch, INBOUND, k.lastMessageSeq, k.lastReadSeq, ""));
        block := BroadcastNow(0, p);
        assert Enabled(Next(s, Snapshot(0, p)), Emit(0)) && [Snapshot(0, p), Emit(0)][1..] == [Emit(0)];
      }
    } else if s.marks != [] {
      block := Single(MarkArrive(0));
    } else if s.handlers != [] {
      block := MarkReadNow(0);
      assert Enabled(Next(s, MarkUpdate(0)), Emit(0)) && [MarkUpdate(0), Emit(0)][1..] == [Emit(0)];
    } else {
      var c :| 0 <= c < |s.clients| && (s.clients[c].inbox != [] || s.clients[c].scheduled);
      block := if s.clients[c].inbox != [] then Single(Deliver(c, 0)) else Single(RunEffect(c));
    }
  }

  /** The protocol's own steps leave the chat open and never drop its row. */
  lemma WatchingStep(s: State, step: Step, viewer: nat, id: ContactId)
    requires Enabled(s, step) && Internal(step) && !step.FetchEnd? && Watching(s, viewer, id)
    ensures Watching(Next(s, step), viewer, id)
  {
    if step.Deliver? && step.client == viewer {
      var list := s.clients[viewer].cache[ByChannel(WHATSAPP)];
      assert list[FindIndex(list, id)].contactId == id;
      PatchedContacts(ByChannel(WHATSAPP), list, s.clients[viewer].inbox[step.index], id);
    }
  }

  lemma InternalBlockStep(s: State, block: Block, channelOf: ContactId -> Channel, viewer: nat, id: ContactId)
    requires Converging(s, channelOf) && InternalBlock(block) && Orderly(block, channelOf) && ValidRun(s, Expand(block))
    requires Watching(s, viewer, id)
    ensures var t := Final(s, Expand(block));
            Converging(t, channelOf) && Potential(t) < Potential(s) && Watching(t, viewer, id)
  {
    ConvergingBlock(s, block, channelOf);
    var first := Expand(block)[0];
    InternalStepLowers(s, first);
    WatchingStep(s, first, viewer, id);
    if block.Single? {
      assert Expand(block)[1..] == [] && Final(s, Expand(block)) == Next(s, first);
    } else {
      TwoSteps(s, first, Emit(0));
      SafeStep(s, first);
      InternalStepLowers(Next(s, first), Emit(0));
      WatchingStep(Next(s, first), Emit(0), viewer, id);
    }
  }

  lemma {:induction false} SettlesWatching(s: State, channelOf: ContactId -> Channel, viewer: nat, id: ContactId)
    returns (more: seq<Block>)
    requires Converging(s, channelOf) && Watching(s, viewer, id)
    ensures OrderlyRun(s, more, channelOf) && |more| <= Potential(s)
    ensures forall i :: 0 <= i < |more| ==> InternalBlock(more[i])
    ensures Quiet(OrderlyFinal(s, more, channelOf)) && Watching(OrderlyFinal(s, more, channelOf), viewer, id)
    decreases Potential(s)
  {
    if Quiet(s) {
      more := [];
    } else {
      var block := OrderlyStepUnlessQuiet(s, channelOf);
      InternalBlockStep(s, block, channelOf, viewer, id);
      var rest := SettlesWatching(Final(s, Expand(block)), channelOf, viewer, id);
      more := [block] + rest;
      assert more[1..] == rest;
    }
  }

  lemma {:induction false} OrderlyRunsCompose(s: State, first: seq<Block>, second: seq<Block>,
                                              channelOf: ContactId -> Channel)
    requires OrderlyRun(s, first, channelOf) && OrderlyRun(OrderlyFinal(s, first, channelOf), second, channelOf)
    ensures OrderlyRun(s, first + second, channelOf)
    ensures OrderlyFinal(s, first + second, channelOf) ==
              OrderlyFinal(OrderlyFinal(s, first, channelOf), second, channelOf)
    decreases |first|
  {
    hide Next, Enabled, ValidRun, Final, Orderly, Expand;
    if first == [] {
      assert first + second == second;
    } else {
      var rest, t := first[1..], Final(s, Expand(first[0]));
      OrderlyRunsCompose(t, rest, second, channelOf);
      assert (first + second)[1..] == rest + second && (first + second)[0] == first[0];
      assert OrderlyFinal(s, first, channelOf) == OrderlyFinal(t, rest, channelOf);
    }
  }

  /**
   * From any state an orderly run reaches, if a contact is open and visible with its row loaded and the
   * outside world pauses, the protocol's own steps bring its unread count to 0 within the potential.
   */
  lemma OpenChatGetsRead(s: State, blocks: seq<Block>, channelOf: ContactId -> Channel, viewer: nat, id: ContactId)
    returns (more: seq<Block>)
    requires Init(s) && OrderlyRun(s, blocks, channelOf) && channelOf(id) == WHATSAPP
    requires Watching(OrderlyFinal(s, blocks, channelOf), viewer, id)
    ensures forall i :: 0 <= i < |more| ==> InternalBlock(more[i])
    ensures |more| <= Potential(OrderlyFinal(s, blocks, channelOf))
    ensures OrderlyRun(s, blocks + more, channelOf)
    ensures var t := OrderlyFinal(s, blocks + more, channelOf);
            && Quiet(t) && id in t.contacts && t.contacts[id].lastReadSeq == t.contacts[id].lastMessageSeq
            && Badge(t.contacts[id].lastMessageSeq, t.contacts[id].lastReadSeq) == 0
  {
    InitIsSafe(s);
    ConvergingRun(s, blocks, channelOf);
    more := SettlesWatching(OrderlyFinal(s, blocks, channelOf), channelOf, viewer, id);
    OrderlyRunsCompose(s, blocks, more, channelOf);
    QuietMeansRead(s, blocks + more, channelOf, viewer, id);
  }

  /** The protocol cannot take another block of its own. */
  ghost predicate Stuck(s: State, channelOf: ContactId -> Channel) {
    forall block :: InternalBlock(block) && Orderly(block, channelOf) ==> !ValidRun(s, Expand(block))
  }

  lemma {:induction false} KeepsWatching(s: State, more: seq<Block>, channelOf: ContactId -> Channel, viewer: nat,
                                         id: ContactId)
    requires Converging(s, channelOf) && OrderlyRun(s, more, channelOf) && Watching(s, viewer, id)
    requires forall i :: 0 <= i < |more| ==> InternalBlock(more[i])
    ensures var t := OrderlyFinal(s, more, channelOf);
            Converging(t, channelOf) && Watching(t, viewer, id) && |more| + Potential(t) <= Potential(s)
    decreases |more|
  {
    if more != [] {
      InternalBlockStep(s, more[0], channelOf, viewer, id);
      KeepsWatching(Final(s, Expand(more[0])), more[1..], channelOf, viewer, id);
    }
  }

  /**
   * However it goes on: once the outside world pauses, every run of the protocol's own blocks from a
   * state with the contact open, visible and loaded is at most as long as the potential, and if it
   * cannot be extended the contact's unread count is 0.
   */
  lemma OpenChatAlwaysGetsRead(s: State, blocks: seq<Block>, more: seq<Block>, channelOf: ContactId -> Channel,
                               viewer: nat, id: ContactId)
    requires Init(s) && OrderlyRun(s, blocks, channelOf) && channelOf(id) == WHATSAPP
    requires Watching(OrderlyFinal(s, blocks, channelOf), viewer, id)
    requires OrderlyRun(OrderlyFinal(s, blocks, channelOf), more, channelOf)
    requires forall i :: 0 <= i < |more| ==> InternalBlock(more[i])
    ensures |more| <= Potential(OrderlyFinal(s, blocks, channelOf))
    ensures var t := OrderlyFinal(OrderlyFinal(s, blocks, channelOf), more, channelOf);
            Stuck(t, channelOf) ==>
              && Quiet(t) && id in t.contacts && t.contacts[id].lastReadSeq == t.contacts[id].lastMessageSeq
              && Badge(t.contacts[id].lastMessageSeq, t.contacts[id].lastReadSeq) == 0
  {
    var u := OrderlyFinal(s, blocks, channelOf);
    InitIsSafe(s);
    ConvergingRun(s, blocks, channelOf);
    KeepsWatching(u, more, channelOf, viewer, id);
    var t := OrderlyFinal(u, more, channelOf);
    if Stuck(t, channelOf) {
      if !Quiet(t) { var block := OrderlyStepUnlessQuiet(t, channelOf); }
      OrderlyRunsCompose(s, blocks, more, channelOf);
      QuietMeansRead(s, blocks + more, channelOf, viewer, id);
    }
  }
}
