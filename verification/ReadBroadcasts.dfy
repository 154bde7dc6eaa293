/**
 * The broadcasts of handleReadMark when its check, its update and its emit are interleaved with
 * everything else: when they rise strictly, and a run on which the caught-up check does not stop a
 * doubled one.
 */
module ReadBroadcasts {
  import opened Options
  import opened SocketEvents
  import opened CachePatch
  import opened ReadGateway
  import opened ReadProtocol

  function Watermark(contacts: Contacts, id: ContactId): nat {
    if id in contacts then contacts[id].lastReadSeq else 0
  }

  function Counter(contacts: Contacts, id: ContactId): nat {
    if id in contacts then contacts[id].lastMessageSeq else 0
  }

  /** The step runs the UPDATE of a read:mark for this contact and puts the payload up for its emit. */
  predicate Updates(s: State, step: Step, id: ContactId) {
    step.MarkUpdate? && step.index < |s.handlers| && s.handlers[step.index].contact == id
  }

  /** The watermarks a run's updates set for the contact, oldest first. */
  ghost function Updated(s: State, steps: seq<Step>, id: ContactId): seq<int>
    requires ValidRun(s, steps)
    decreases |steps|
  {
    if steps == [] then []
    else (if Updates(s, steps[0], id) then [s.contacts[id].lastMessageSeq] else [])
         + Updated(Next(s, steps[0]), steps[1..], id)
  }

  predicate IsRead(p: Payload, id: ContactId) {
    p.Read? && p.read.contactId == id
  }

  /** The watermarks of the contact waiting in a queue. */
  function Waiting(queue: seq<Payload>, id: ContactId): seq<int> {
    if queue == [] then []
    else
      var earlier, last := Waiting(queue[..|queue| - 1], id), queue[|queue| - 1];
      if IsRead(last, id) then earlier + [last.read.lastReadSeq] else earlier
  }

  /** The step emits READ_UPDATED for the contact to every socket. */
  predicate Broadcasts(s: State, step: Step, id: ContactId) {
    step.Emit? && step.index < |s.unsent| && IsRead(s.unsent[step.index], id)
  }

  /** The watermarks a run broadcasts for the contact, in the order they leave. */
  ghost function Emitted(s: State, steps: seq<Step>, id: ContactId): seq<int>
    requires ValidRun(s, steps)
    decreases |steps|
  {
    if steps == [] then []
    else (if Broadcasts(s, steps[0], id) then [s.unsent[steps[0].index].read.lastReadSeq] else [])
         + Emitted(Next(s, steps[0]), steps[1..], id)
  }

  /** Every emit for the contact takes its oldest waiting payload: they leave in the order of their updates. */
  ghost predicate InUpdateOrder(s: State, steps: seq<Step>, id: ContactId)
    requires ValidRun(s, steps)
    decreases |steps|
  {
    steps == [] ||
    ((Broadcasts(s, steps[0], id) ==> Waiting(s.unsent[..steps[0].index], id) == [])
     && InUpdateOrder(Next(s, steps[0]), steps[1..], id))
  }

  /** No update of the contact runs when it is caught up already: the guard of the handler, asked once more. */
  ghost predicate NoIdleUpdate(s: State, steps: seq<Step>, id: ContactId)
    requires ValidRun(s, steps)
    decreases |steps|
  {
    steps == [] ||
    (!(Updates(s, steps[0], id) && CaughtUp(s.contacts[id])) && NoIdleUpdate(Next(s, steps[0]), steps[1..], id))
  }

  predicate RisesAbove(values: seq<int>, low: int) {
    && (forall i :: 0 <= i < |values| ==> low < values[i])
    && (forall i, j :: 0 <= i < j < |values| ==> values[i] < values[j])
  }

  lemma RisesFrom(value: int, rest: seq<int>, low: int)
    ensures RisesAbove([value] + rest, low) <==> low < value && RisesAbove(rest, value)
  {
    var all := [value] + rest;
    if RisesAbove(all, low) {
      assert all[0] == value;
      forall i | 0 <= i < |rest| ensures value < rest[i] { assert all[i + 1] == rest[i]; }
      forall i, j | 0 <= i < j < |rest|
        ensures rest[i] < rest[j] { assert all[i + 1] == rest[i] && all[j + 1] == rest[j]; }
    }
  }

  /** A step sets the watermark to the counter if it updates the contact, and leaves it alone otherwise. */
  lemma WatermarkStep(s: State, step: Step, id: ContactId)
    requires Enabled(s, step)
    ensures Watermark(Next(s, step).contacts, id) ==
              if Updates(s, step, id) then s.contacts[id].lastMessageSeq else Watermark(s.contacts, id)
  {
  }

  /**
   * On every run, however interleaved, the watermarks set for a contact rise strictly above the one it
   * started with if and only if no update of the contact runs when it is caught up.
   */
  lemma {:induction false} UpdatesRiseIff(s: State, steps: seq<Step>, id: ContactId)
    requires Safe(s) && ValidRun(s, steps)
    ensures RisesAbove(Updated(s, steps, id), Watermark(s.contacts, id)) <==> NoIdleUpdate(s, steps, id)
    decreases |steps|
  {
    if steps != [] {
      var t, rest := Next(s, steps[0]), Updated(Next(s, steps[0]), steps[1..], id);
      SafeStep(s, steps[0]);
      WatermarkStep(s, steps[0], id);
      UpdatesRiseIff(t, steps[1..], id);
      hide Next, Safe, Enabled;
      if Updates(s, steps[0], id) {
        RisesFrom(s.contacts[id].lastMessageSeq, rest, Watermark(s.contacts, id));
      } else {
        assert [] + rest == rest;
      }
    }
  }

  predicate NeverFalls(values: seq<int>, low: int) {
    && (forall i :: 0 <= i < |values| ==> low <= values[i])
    && (forall i, j :: 0 <= i < j < |values| ==> values[i] <= values[j])
  }

  /** Idle or not, an update never sets less than the one before. */
  lemma {:induction false} UpdatesNeverFall(s: State, steps: seq<Step>, id: ContactId)
    requires Safe(s) && ValidRun(s, steps)
    ensures NeverFalls(Updated(s, steps, id), Counter(s.contacts, id))
    decreases |steps|
  {
    if steps != [] {
      var t, rest := Next(s, steps[0]), Updated(Next(s, steps[0]), steps[1..], id);
      SafeStep(s, steps[0]);
      assert Counter(s.contacts, id) <= Counter(t.contacts, id);
      UpdatesNeverFall(t, steps[1..], id);
      hide Next, Safe, Enabled;
      FallsFrom(Counter(s.contacts, id), rest, Counter(t.contacts, id));
      assert [] + rest == rest;
    }
  }

  lemma FallsFrom(value: int, rest: seq<int>, low: int)
    requires value <= low && NeverFalls(rest, low)
    ensures NeverFalls([value] + rest, value) && NeverFalls(rest, value)
  {
  }

  // ── Updates and emits ─────────────────────────────────────────────────────

  lemma {:induction false} WaitingOfAppend(a: seq<Payload>, b: seq<Payload>, id: ContactId)
    ensures Waiting(a + b, id) == Waiting(a, id) + Waiting(b, id)
  {
    hide IsRead;
    if b == [] {
      assert a + b == a;
    } else {
      var last, n := |b| - 1, |a + b| - 1;
      WaitingOfAppend(a, b[..last], id);
      assert (a + b)[..n] == a + b[..last] && (a + b)[n] == b[last];
    }
  }

  lemma WaitingOfOne(p: Payload, id: ContactId)
    ensures Waiting([p], id) == if IsRead(p, id) then [p.read.lastReadSeq] else []
  {
    assert [p][..0] == [];
  }

  /** What taking one payload out of the queue leaves waiting. */
  lemma WaitingOfRemove(queue: seq<Payload>, i: nat, id: ContactId) returns (before: seq<int>, after: seq<int>)
    requires i < |queue|
    ensures before == Waiting(queue[..i], id) && Waiting(RemoveAt(queue, i), id) == before + after
    ensures IsRead(queue[i], id) ==> Waiting(queue, id) == before + ([queue[i].read.lastReadSeq] + after)
    ensures !IsRead(queue[i], id) ==> Waiting(queue, id) == before + after
  {
    hide IsRead, Waiting;
    before, after := Waiting(queue[..i], id), Waiting(queue[i + 1..], id);
    WaitingOfAppend(queue[..i], queue[i + 1..], id);
    WaitingOfOne(queue[i], id);
    WaitingOfAppend([queue[i]], queue[i + 1..], id);
    WaitingOfAppend(queue[..i], [queue[i]] + queue[i + 1..], id);
    assert queue == queue[..i] + ([queue[i]] + queue[i + 1..]);
    assert [] + after == after;
  }

  /** A step adds what it updates to the end of the waiting watermarks; only an emit takes any out. */
  lemma WaitingStep(s: State, step: Step, id: ContactId)
    requires Enabled(s, step) && !Broadcasts(s, step, id)
    ensures Waiting(Next(s, step).unsent, id) ==
              Waiting(s.unsent, id) + (if Updates(s, step, id) then [s.contacts[id].lastMessageSeq] else [])
  {
    var t := Next(s, step);
    if step.Emit? {
      var before, after := WaitingOfRemove(s.unsent, step.index, id);
      assert before + after + [] == before + after;
    } else if step.Snapshot? || step.MarkUpdate? {
      var p := t.unsent[|s.unsent|];
      assert t.unsent == s.unsent + [p];
      WaitingOfAppend(s.unsent, [p], id);
      WaitingOfOne(p, id);
      assert Waiting(s.unsent, id) + [] == Waiting(s.unsent, id);
    } else {
      assert Waiting(s.unsent, id) + [] == Waiting(s.unsent, id);
    }
  }

  lemma EmitStep(s: State, step: Step, id: ContactId) returns (before: seq<int>, after: seq<int>)
    requires Enabled(s, step) && Broadcasts(s, step, id)
    ensures before == Waiting(s.unsent[..step.index], id)
    ensures Waiting(s.unsent, id) == before + ([s.unsent[step.index].read.lastReadSeq] + after)
    ensures Waiting(Next(s, step).unsent, id) == before + after && !Updates(s, step, id)
  {
    before, after := WaitingOfRemove(s.unsent, step.index, id);
  }

  lemma TakenOut(before: seq<int>, v: int, after: seq<int>, updated: seq<int>, later: seq<int>, left: seq<int>)
    requires multiset(before + after + updated) == multiset(later + left)
    ensures multiset(before + ([v] + after) + updated) == multiset([v] + later + left)
  {
    Regroup(before, after, updated);
    assert before + ([v] + after) + updated == before + ([v] + (after + updated));
    Regroup([v], later, left);
  }

  lemma Regroup(a: seq<int>, b: seq<int>, c: seq<int>)
    ensures a + b + c == a + (b + c)
  {
  }

  /** Whatever the order, what was waiting and what is updated is, once each, either emitted or still waiting. */
  lemma {:induction false} EmittedOnce(s: State, steps: seq<Step>, id: ContactId)
    requires ValidRun(s, steps)
    ensures multiset(Waiting(s.unsent, id) + Updated(s, steps, id))
         == multiset(Emitted(s, steps, id) + Waiting(Final(s, steps).unsent, id))
    decreases |steps|
  {
    if steps == [] {
      assert Waiting(s.unsent, id) + [] == [] + Waiting(s.unsent, id);
    } else {
      var t, rest := Next(s, steps[0]), steps[1..];
      var later, left := Emitted(t, rest, id), Waiting(Final(t, rest).unsent, id);
      EmittedOnce(t, rest, id);
      if Broadcasts(s, steps[0], id) {
        var v := s.unsent[steps[0].index].read.lastReadSeq;
        var before, after := EmitStep(s, steps[0], id);
        hide Next, Enabled, Waiting;
        TakenOut(before, v, after, Updated(t, rest, id), later, left);
        assert [] + Updated(t, rest, id) == Updated(t, rest, id);
      } else {
        WaitingStep(s, steps[0], id);
        hide Next, Enabled, Waiting;
        Regroup(Waiting(s.unsent, id), if Updates(s, steps[0], id) then [s.contacts[id].lastMessageSeq] else [],
                Updated(t, rest, id));
        assert [] + later == later;
      }
    }
  }

  /** In update order nothing is shuffled: the emitted watermarks, then those still waiting, are the updated ones. */
  lemma {:induction false} EmittedInOrder(s: State, steps: seq<Step>, id: ContactId)
    requires ValidRun(s, steps) && InUpdateOrder(s, steps, id)
    ensures Emitted(s, steps, id) + Waiting(Final(s, steps).unsent, id) == Waiting(s.unsent, id) + Updated(s, steps, id)
    decreases |steps|
  {
    if steps == [] {
      assert Waiting(s.unsent, id) + [] == [] + Waiting(s.unsent, id);
    } else {
      var t, rest := Next(s, steps[0]), steps[1..];
      var later, left := Emitted(t, rest, id), Waiting(Final(t, rest).unsent, id);
      EmittedInOrder(t, rest, id);
      if Broadcasts(s, steps[0], id) {
        var v := s.unsent[steps[0].index].read.lastReadSeq;
        var before, after := EmitStep(s, steps[0], id);
        hide Next, Enabled, Waiting;
        Regroup([v], after, Updated(t, rest, id));
        Regroup([v], later, left);
        assert [] + ([v] + after) == [v] + after && [] + after == after;
        assert [] + Updated(t, rest, id) == Updated(t, rest, id);
      } else {
        WaitingStep(s, steps[0], id);
        hide Next, Enabled, Waiting;
        Regroup(Waiting(s.unsent, id), if Updates(s, steps[0], id) then [s.contacts[id].lastMessageSeq] else [],
                Updated(t, rest, id));
        assert [] + later == later;
      }
    }
  }

  // ── When the broadcasts rise ──────────────────────────────────────────────

  predicate Rises(values: seq<int>) {
    forall i, j :: 0 <= i < j < |values| ==> values[i] < values[j]
  }

  /** Strictly rising values stay so when the first is taken, and when any other is. */
  lemma RisesWithout(before: seq<int>, v: int, after: seq<int>)
    requires Rises(before + ([v] + after))
    ensures Rises(before + after) && (before != [] ==> before[0] < v)
  {
    var all := before + ([v] + after);
    forall i, j | 0 <= i < j < |before + after| ensures (before + after)[i] < (before + after)[j] {
      var k, l := if i < |before| then i else i + 1, if j < |before| then j else j + 1;
      assert all[k] == (before + after)[i] && all[l] == (before + after)[j];
    }
    if before != [] { assert all[0] == before[0] && all[|before|] == v; }
  }

  lemma HeadIsLeast(values: seq<int>, v: int, x: int)
    requires Rises([v] + values) && x in values
    ensures v < x
  {
    var i :| 0 <= i < |values| && values[i] == x;
    assert ([v] + values)[0] == v && ([v] + values)[i + 1] == x;
  }

  lemma RisesTail(v: int, rest: seq<int>)
    requires Rises([v] + rest)
    ensures Rises(rest)
  {
    forall i, j | 0 <= i < j < |rest| ensures rest[i] < rest[j] {
      assert ([v] + rest)[i + 1] == rest[i] && ([v] + rest)[j + 1] == rest[j];
    }
  }

  /** Rising updates that are all emitted leave rising only in update order. */
  lemma {:induction false} RisingNeedsOrder(s: State, steps: seq<Step>, id: ContactId)
    requires ValidRun(s, steps) && Waiting(Final(s, steps).unsent, id) == []
    requires Rises(Waiting(s.unsent, id) + Updated(s, steps, id)) && Rises(Emitted(s, steps, id))
    ensures InUpdateOrder(s, steps, id)
    decreases |steps|
  {
    if steps != [] {
      var t, rest := Next(s, steps[0]), steps[1..];
      var later := Emitted(t, rest, id);
      if Broadcasts(s, steps[0], id) {
        var v := s.unsent[steps[0].index].read.lastReadSeq;
        var before, after := EmitStep(s, steps[0], id);
        EmittedOnce(t, rest, id);
        hide Next, Enabled, Waiting, Rises;
        assert [] + Updated(t, rest, id) == Updated(t, rest, id) && later + [] == later;
        Regroup(before, [v] + after, Updated(t, rest, id));
        Regroup([v], after, Updated(t, rest, id));
        RisesWithout(before, v, after + Updated(t, rest, id));
        Regroup(before, after, Updated(t, rest, id));
        RisesTail(v, later);
        if before != [] {
          assert before[0] in before + (after + Updated(t, rest, id));
          assert before[0] in multiset(later);
          HeadIsLeast(later, v, before[0]);
        }
        RisingNeedsOrder(t, rest, id);
      } else {
        WaitingStep(s, steps[0], id);
        hide Next, Enabled, Waiting, Rises;
        Regroup(Waiting(s.unsent, id), if Updates(s, steps[0], id) then [s.contacts[id].lastMessageSeq] else [],
                Updated(t, rest, id));
        assert [] + later == later;
        RisingNeedsOrder(t, rest, id);
      }
    }
  }

  /** Each value at most once. */
  ghost predicate Distinct(values: seq<int>) {
    forall v :: multiset(values)[v] <= 1
  }

  predicate AllAbove(values: seq<int>, low: int) {
    forall v :: v in values ==> low < v
  }

  lemma {:induction false} RisingIsDistinct(values: seq<int>)
    requires Rises(values)
    ensures Distinct(values)
    decreases |values|
  {
    if values != [] {
      var front, last := values[..|values| - 1], values[|values| - 1];
      assert values == front + [last];
      RisingIsDistinct(front);
      assert last !in front;
    }
  }

  lemma TwiceIn(values: seq<int>, i: int, j: int)
    requires 0 <= i < j < |values| && values[i] == values[j]
    ensures multiset(values)[values[i]] >= 2
  {
    var head, tail := values[..j], values[j..];
    assert values == head + tail && head[i] == values[i] && tail[0] == values[i];
    assert multiset(head)[values[i]] >= 1 && multiset(tail)[values[i]] >= 1;
  }

  /** Values that never fall rise strictly above a bound exactly when they are distinct and above it. */
  lemma RisesMeansDistinct(values: seq<int>, low: int, least: int)
    requires NeverFalls(values, least)
    ensures RisesAbove(values, low) <==> Distinct(values) && AllAbove(values, low)
  {
    if RisesAbove(values, low) {
      RisingIsDistinct(values);
    }
    if Distinct(values) && AllAbove(values, low) {
      forall i, j | 0 <= i < j < |values| ensures values[i] < values[j] {
        if values[i] == values[j] { TwiceIn(values, i, j); }
      }
      forall i | 0 <= i < |values| ensures low < values[i] { assert values[i] in values; }
    }
  }

  lemma SameValues(a: seq<int>, b: seq<int>, low: int)
    requires multiset(a) == multiset(b)
    ensures Distinct(a) <==> Distinct(b)
    ensures AllAbove(a, low) <==> AllAbove(b, low)
  {
    forall v ensures v in a <==> v in b { assert v in multiset(a) <==> v in multiset(b); }
  }

  lemma AllEmitted(s: State, steps: seq<Step>, id: ContactId)
    requires ValidRun(s, steps) && Waiting(s.unsent, id) == [] && Waiting(Final(s, steps).unsent, id) == []
    ensures multiset(Updated(s, steps, id)) == multiset(Emitted(s, steps, id))
  {
    EmittedOnce(s, steps, id);
    hide Next, Enabled, Waiting, Updated, Emitted, Final;
    assert [] + Updated(s, steps, id) == Updated(s, steps, id);
    assert Emitted(s, steps, id) + [] == Emitted(s, steps, id);
  }

  /**
   * Whatever the order of the emits: once all are out, the broadcasts of a contact are distinct and above
   * the watermark it started with if and only if no update of the contact ran when it was caught up.
   */
  lemma BroadcastsDistinctIff(s: State, steps: seq<Step>, id: ContactId)
    requires Safe(s) && ValidRun(s, steps)
    requires Waiting(s.unsent, id) == [] && Waiting(Final(s, steps).unsent, id) == []
    ensures Distinct(Emitted(s, steps, id)) && AllAbove(Emitted(s, steps, id), Watermark(s.contacts, id))
            <==> NoIdleUpdate(s, steps, id)
  {
    AllEmitted(s, steps, id);
    SameValues(Updated(s, steps, id), Emitted(s, steps, id), Watermark(s.contacts, id));
    UpdatesNeverFall(s, steps, id);
    RisesMeansDistinct(Updated(s, steps, id), Watermark(s.contacts, id), Counter(s.contacts, id));
    UpdatesRiseIff(s, steps, id);
  }

  /**
   * On every run, however interleaved: once all are out, the broadcasts of a contact rose strictly above
   * the watermark it started with if and only if no update of the contact ran when it was caught up and
   * they left in the order of their updates.
   */
  lemma BroadcastsRiseIff(s: State, steps: seq<Step>, id: ContactId)
    requires Safe(s) && ValidRun(s, steps)
    requires Waiting(s.unsent, id) == [] && Waiting(Final(s, steps).unsent, id) == []
    ensures RisesAbove(Emitted(s, steps, id), Watermark(s.contacts, id))
            <==> NoIdleUpdate(s, steps, id) && InUpdateOrder(s, steps, id)
  {
    var updated, out, low := Updated(s, steps, id), Emitted(s, steps, id), Watermark(s.contacts, id);
    UpdatesRiseIff(s, steps, id);
    BroadcastsDistinctIff(s, steps, id);
    hide Next, Enabled, Waiting, Safe;
    if InUpdateOrder(s, steps, id) { AllEmittedInOrder(s, steps, id); }
    if RisesAbove(out, low) {
      assert Rises(out);
      RisingIsDistinct(out);
      assert AllAbove(out, low);
      assert NoIdleUpdate(s, steps, id);
      assert [] + updated == updated && Rises(updated);
      RisingNeedsOrder(s, steps, id);
    }
  }

  lemma AllEmittedInOrder(s: State, steps: seq<Step>, id: ContactId)
    requires ValidRun(s, steps) && InUpdateOrder(s, steps, id)
    requires Waiting(s.unsent, id) == [] && Waiting(Final(s, steps).unsent, id) == []
    ensures Emitted(s, steps, id) == Updated(s, steps, id)
  {
    EmittedInOrder(s, steps, id);
    hide Next, Enabled, Waiting, Emitted, Updated;
    var updated, out := Updated(s, steps, id), Emitted(s, steps, id);
    assert out + [] == out;
    assert [] + updated == updated;
  }

  /** With no idle update the contact is broadcast at most as often as its watermark rose. */
  lemma RisingBroadcastsAreFew(s: State, steps: seq<Step>, id: ContactId)
    requires Safe(s) && ValidRun(s, steps) && NoIdleUpdate(s, steps, id) && Waiting(s.unsent, id) == []
    ensures |Emitted(s, steps, id)| + Watermark(s.contacts, id) <= Watermark(Final(s, steps).contacts, id)
  {
    UpdatesAreFew(s, steps, id);
    EmittedOnce(s, steps, id);
    hide Next, Enabled, Waiting, Safe;
    var left := Waiting(Final(s, steps).unsent, id);
    assert |multiset([] + Updated(s, steps, id))| == |Updated(s, steps, id)|;
    assert |multiset(Emitted(s, steps, id) + left)| == |Emitted(s, steps, id)| + |left|;
  }

  lemma {:induction false} UpdatesAreFew(s: State, steps: seq<Step>, id: ContactId)
    requires Safe(s) && ValidRun(s, steps) && NoIdleUpdate(s, steps, id)
    ensures |Updated(s, steps, id)| + Watermark(s.contacts, id) <= Watermark(Final(s, steps).contacts, id)
    decreases |steps|
  {
    if steps != [] {
      SafeStep(s, steps[0]);
      WatermarkStep(s, steps[0], id);
      UpdatesAreFew(Next(s, steps[0]), steps[1..], id);
    }
  }

  // ── A doubled broadcast, from the start ───────────────────────────────────

  lemma RunCons(s: State, step: Step, rest: seq<Step>, id: ContactId)
    requires Enabled(s, step) && ValidRun(Next(s, step), rest)
    ensures ValidRun(s, [step] + rest) && Final(s, [step] + rest) == Final(Next(s, step), rest)
    ensures Emitted(s, [step] + rest, id) ==
              (if Broadcasts(s, step, id) then [s.unsent[step.index].read.lastReadSeq] else [])
                + Emitted(Next(s, step), rest, id)
  {
    hide Next, Enabled;
    assert ([step] + rest)[0] == step && ([step] + rest)[1..] == rest;
  }

  /** A client that opens a contact it has not marked: it loads the list, shows the contact, and sends read:mark. */
  function Opening(c: nat, row: Conversation): seq<Step> {
    [FetchStart(Fetch(c, ByChannel(WHATSAPP), [row]))]
    + ([FetchEnd(0)] + ([Open(c, Some(row.contactId))] + ([RunEffect(c)] + [])))
  }

  /** A client that has loaded and opened nothing yet, with its window visible. */
  ghost predicate Idle(client: Client) {
    client.cache == map[] && client.guards == map[] && client.open == None && client.visible
  }

  lemma OpenedMarks(client: Client, row: Conversation)
    requires Idle(client) && row.contactId != "" && row.lastMessageSeq > 0
    ensures var shown := WithCache(client, client.cache[ByChannel(WHATSAPP) := [row]]).(open := Some(row.contactId));
            Marks(shown)
  {
    assert [row][0].contactId == row.contactId;
    assert FindIndex([row], row.contactId) == 0;
  }

  lemma LoadedState(s: State, c: nat, row: Conversation)
    requires c < |s.clients| && s.fetches == [] && ServerRows(s.contacts, [row])
    ensures var fetched := FetchStart(Fetch(c, ByChannel(WHATSAPP), [row]));
            && Enabled(s, fetched) && Enabled(Next(s, fetched), FetchEnd(0))
            && Next(Next(s, fetched), FetchEnd(0)) ==
                 s.(clients := s.clients[c := WithCache(s.clients[c],
                   s.clients[c].cache[ByChannel(WHATSAPP) := [row]])])
  {
    var t := Next(s, FetchStart(Fetch(c, ByChannel(WHATSAPP), [row])));
    assert t.fetches == [Fetch(c, ByChannel(WHATSAPP), [row])];
    assert RemoveAt(t.fetches, 0) == [];
  }

  lemma OpenedState(s: State, c: nat, id: ContactId)
    requires c < |s.clients| && s.fetches == [] && s.clients[c].open == None && Marks(s.clients[c].(open := Some(id)))
    ensures var shown := Open(c, Some(id));
            && Enabled(s, shown) && Enabled(Next(s, shown), RunEffect(c))
            && Opened(s, Next(Next(s, shown), RunEffect(c)), c, id)
  {
    var t := Next(s, Open(c, Some(id)));
    assert t.clients[c].scheduled && Marks(t.clients[c]);
  }

  lemma OpeningStates(s: State, c: nat, row: Conversation)
    requires c < |s.clients| && s.fetches == [] && Idle(s.clients[c])
    requires ServerRows(s.contacts, [row]) && row.contactId != "" && row.lastMessageSeq > 0
    ensures var fetched, shown := FetchStart(Fetch(c, ByChannel(WHATSAPP), [row])), Open(c, Some(row.contactId));
            && Enabled(s, fetched) && Enabled(Next(s, fetched), FetchEnd(0))
            && Enabled(Next(Next(s, fetched), FetchEnd(0)), shown)
            && Enabled(Next(Next(Next(s, fetched), FetchEnd(0)), shown), RunEffect(c))
            && Opened(s, Next(Next(Next(Next(s, fetched), FetchEnd(0)), shown), RunEffect(c)), c, row.contactId)
  {
    hide Next, Enabled, ServerRows, Marks;
    LoadedState(s, c, row);
    OpenedMarks(s.clients[c], row);
    OpenedState(s.(clients := s.clients[c := WithCache(s.clients[c],
      s.clients[c].cache[ByChannel(WHATSAPP) := [row]])]),
                c, row.contactId);
  }

  /** The client sent its mark, and only the client changed besides. */
  ghost predicate Opened(s: State, t: State, c: nat, id: ContactId) {
    && t.contacts == s.contacts && t.unsent == s.unsent && t.handlers == s.handlers && t.fetches == []
    && t.marks == s.marks + [Mark(c, id)]
    && |t.clients| == |s.clients| && (forall k :: 0 <= k < |s.clients| && k != c ==> t.clients[k] == s.clients[k])
    && (c < |s.clients| ==> t.clients[c].inbox == s.clients[c].inbox)
  }

  lemma OpeningMarks(s: State, c: nat, row: Conversation) returns (t: State)
    requires c < |s.clients| && s.fetches == [] && Idle(s.clients[c])
    requires ServerRows(s.contacts, [row]) && row.contactId != "" && row.lastMessageSeq > 0
    ensures ValidRun(s, Opening(c, row)) && t == Final(s, Opening(c, row)) && Opened(s, t, c, row.contactId)
    ensures Emitted(s, Opening(c, row), row.contactId) == []
  {
    hide Next, Enabled, ServerRows, Opened;
    var id, fetch, shown := row.contactId, FetchStart(Fetch(c, ByChannel(WHATSAPP), [row])),
        Open(c, Some(row.contactId));
    OpeningStates(s, c, row);
    var s1 := Next(s, fetch);
    var s2 := Next(s1, FetchEnd(0));
    var s3 := Next(s2, shown);
    t := Next(s3, RunEffect(c));
    RunCons(s3, RunEffect(c), [], id);
    RunCons(s2, shown, [RunEffect(c)] + [], id);
    RunCons(s1, FetchEnd(0), [shown] + ([RunEffect(c)] + []), id);
    RunCons(s, fetch, [FetchEnd(0)] + ([shown] + ([RunEffect(c)] + [])), id);
  }

  function BothChecked(): seq<Step> {
    [MarkArrive(0)] + ([MarkArrive(0)] + ([MarkUpdate(0)] + ([MarkUpdate(0)] + [])))
  }

  function BothOut(): seq<Step> {
    [Emit(0)] + ([Emit(0)] + [])
  }

  function ReadOf(s: State, id: ContactId): Payload
    requires id in s.contacts
  {
    Read(ReadPayload(id, s.contacts[id].lastMessageSeq))
  }

  lemma CheckedStates(s: State, a: Mark, b: Mark)
    requires s.marks == [a, b] && s.handlers == [] && a.contact == b.contact
    requires a.contact in s.contacts && !CaughtUp(s.contacts[a.contact])
    ensures Enabled(s, MarkArrive(0)) && Enabled(Next(s, MarkArrive(0)), MarkArrive(0))
    ensures Next(Next(s, MarkArrive(0)), MarkArrive(0)) == s.(marks := [], handlers := [a, b])
  {
    var t := Next(s, MarkArrive(0));
    assert t.marks == [b] && t.handlers == [a];
  }

  lemma UpdatedStates(s: State, a: Mark, b: Mark)
    requires s.handlers == [a, b] && a.contact == b.contact && a.contact in s.contacts && s.unsent == []
    ensures Enabled(s, MarkUpdate(0)) && Enabled(Next(s, MarkUpdate(0)), MarkUpdate(0))
    ensures var t := Next(Next(s, MarkUpdate(0)), MarkUpdate(0));
            && t.unsent == [ReadOf(s, a.contact), ReadOf(s, a.contact)]
            && t.clients == s.clients && a.contact in t.contacts
  {
    var t := Next(s, MarkUpdate(0));
    assert t.handlers == [b] && t.unsent == [ReadOf(s, a.contact)];
  }

  /** Two marks pass the check before either updates: both put the same watermark up for broadcast. */
  lemma BothUpdate(s: State, a: Mark, b: Mark) returns (t: State)
    requires s.marks == [a, b] && s.handlers == [] && a.contact == b.contact && s.unsent == []
    requires a.contact in s.contacts && !CaughtUp(s.contacts[a.contact])
    ensures ValidRun(s, BothChecked()) && t == Final(s, BothChecked()) && Emitted(s, BothChecked(), a.contact) == []
    ensures t.unsent == [ReadOf(s, a.contact), ReadOf(s, a.contact)] && t.clients == s.clients
  {
    CheckedStates(s, a, b);
    var s1 := Next(s, MarkArrive(0));
    var s2 := Next(s1, MarkArrive(0));
    UpdatedStates(s2, a, b);
    var s3 := Next(s2, MarkUpdate(0));
    t := Next(s3, MarkUpdate(0));
    hide Next, Enabled;
    RunCons(s3, MarkUpdate(0), [], a.contact);
    RunCons(s2, MarkUpdate(0), [MarkUpdate(0)] + [], a.contact);
    RunCons(s1, MarkArrive(0), [MarkUpdate(0)] + ([MarkUpdate(0)] + []), a.contact);
    RunCons(s, MarkArrive(0), [MarkArrive(0)] + ([MarkUpdate(0)] + ([MarkUpdate(0)] + [])), a.contact);
  }

  /** Both are emitted. */
  lemma BothEmitted(s: State, id: ContactId, seen: int) returns (t: State)
    requires s.unsent == [Read(ReadPayload(id, seen)), Read(ReadPayload(id, seen))]
    ensures ValidRun(s, BothOut()) && t == Final(s, BothOut()) && Emitted(s, BothOut(), id) == [seen, seen]
    ensures t.unsent == []
    ensures |t.clients| == |s.clients|
    ensures forall c :: 0 <= c < |t.clients| ==> t.clients[c].inbox == s.clients[c].inbox + s.unsent
  {
    var p := Read(ReadPayload(id, seen));
    var s1 := Next(s, Emit(0));
    assert s1.unsent == [p];
    t := Next(s1, Emit(0));
    forall c | 0 <= c < |t.clients| ensures t.clients[c].inbox == s.clients[c].inbox + s.unsent {
      assert t.clients[c].inbox == s.clients[c].inbox + [p] + [p];
    }
    RunCons(s1, Emit(0), [], id);
    RunCons(s, Emit(0), [Emit(0)] + [], id);
  }

  lemma {:induction false} EmittedCompose(s: State, first: seq<Step>, second: seq<Step>, id: ContactId)
    requires ValidRun(s, first) && ValidRun(Final(s, first), second)
    ensures ValidRun(s, first + second) && Final(s, first + second) == Final(Final(s, first), second)
    ensures Emitted(s, first + second, id) == Emitted(s, first, id) + Emitted(Final(s, first), second, id)
    decreases |first|
  {
    hide Next, Enabled, Broadcasts;
    if first == [] {
      assert first + second == second;
    } else {
      EmittedCompose(Next(s, first[0]), first[1..], second, id);
      RunCons(s, first[0], first[1..] + second, id);
      assert first + second == [first[0]] + (first[1..] + second);
    }
  }

  lemma StartsIdle(s: State, id: ContactId) returns (row: Conversation)
    requires Init(s) && id in s.contacts && id != "" && !CaughtUp(s.contacts[id])
    ensures row.contactId == id && row.lastMessageSeq > 0 && ServerRows(s.contacts, [row])
    ensures s.fetches == [] && s.marks == [] && s.handlers == [] && s.unsent == []
    ensures forall c :: 0 <= c < |s.clients| ==>
              s.clients[c].inbox == [] && (s.clients[c].visible ==> Idle(s.clients[c]))
  {
    var k := s.contacts[id];
    row := Conversation(id, "", "", "", WHATSAPP, k.lastMessageSeq, k.lastReadSeq, None, 0, [], None, None);
  }

  /** Two clients open the contact: both marks are on their way. */
  lemma BothOpen(s: State, row: Conversation) returns (u: State)
    requires |s.clients| >= 2 && Idle(s.clients[0]) && Idle(s.clients[1]) && s.fetches == [] && s.marks == []
    requires ServerRows(s.contacts, [row]) && row.contactId != "" && row.lastMessageSeq > 0
    requires forall c :: 0 <= c < |s.clients| ==> s.clients[c].inbox == []
    ensures ValidRun(s, Opening(0, row) + Opening(1, row)) && u == Final(s, Opening(0, row) + Opening(1, row))
    ensures Emitted(s, Opening(0, row) + Opening(1, row), row.contactId) == []
    ensures u.marks == [Mark(0, row.contactId), Mark(1, row.contactId)]
    ensures u.contacts == s.contacts && u.handlers == s.handlers && u.unsent == s.unsent && |u.clients| == |s.clients|
    ensures forall c :: 0 <= c < |u.clients| ==> u.clients[c].inbox == []
  {
    hide Next, Enabled, ServerRows, Idle;
    var t := OpeningMarks(s, 0, row);
    u := OpeningMarks(t, 1, row);
    assert u.marks == [Mark(0, row.contactId), Mark(1, row.contactId)];
    EmittedCompose(s, Opening(0, row), Opening(1, row), row.contactId);
  }

  /** Both marks are handled and both broadcasts leave. */
  lemma BothSend(u: State, id: ContactId) returns (w: State)
    requires u.marks == [Mark(0, id), Mark(1, id)] && u.handlers == [] && u.unsent == []
    requires id in u.contacts && !CaughtUp(u.contacts[id])
    requires forall c :: 0 <= c < |u.clients| ==> u.clients[c].inbox == []
    ensures ValidRun(u, BothChecked() + BothOut()) && w == Final(u, BothChecked() + BothOut()) && w.unsent == []
    ensures var seen := u.contacts[id].lastMessageSeq; Emitted(u, BothChecked() + BothOut(), id) == [seen, seen]
    ensures |w.clients| == |u.clients|
    ensures forall c :: 0 <= c < |w.clients| ==> w.clients[c].inbox == [ReadOf(u, id), ReadOf(u, id)]
  {
    var v := BothUpdate(u, Mark(0, id), Mark(1, id));
    w := BothEmitted(v, id, u.contacts[id].lastMessageSeq);
    hide Next, Enabled;
    EmittedCompose(u, BothChecked(), BothOut(), id);
    forall c | 0 <= c < |w.clients| ensures w.clients[c].inbox == [ReadOf(u, id), ReadOf(u, id)] {
      assert w.clients[c].inbox == [] + v.unsent;
    }
  }

  /**
   * The caught-up check does not keep two tabs from doubling one change: from every starting state with
   * two visible clients and an unread contact, the two opening it at once leads to the same watermark
   * being broadcast twice, to every client.
   */
  lemma DoubledFromTheStart(s: State, id: ContactId) returns (steps: seq<Step>)
    requires Init(s) && |s.clients| >= 2 && s.clients[0].visible && s.clients[1].visible
    requires id in s.contacts && id != "" && !CaughtUp(s.contacts[id])
    ensures ValidRun(s, steps) && Final(s, steps).unsent == []
    ensures var seen := s.contacts[id].lastMessageSeq; Emitted(s, steps, id) == [seen, seen]
    ensures var t := Final(s, steps);
            && |t.clients| == |s.clients|
            && forall c :: 0 <= c < |t.clients| ==> t.clients[c].inbox == [ReadOf(s, id), ReadOf(s, id)]
  {
    var row := StartsIdle(s, id);
    hide Next, Enabled, Init, ServerRows, Idle, Opening, BothChecked, BothOut;
    var u := BothOpen(s, row);
    var w := BothSend(u, id);
    EmittedCompose(s, Opening(0, row) + Opening(1, row), BothChecked() + BothOut(), id);
    steps := Opening(0, row) + Opening(1, row) + (BothChecked() + BothOut());
  }
}
