/**
 * The rooms a connection is in on the server. A contact room is joined at once, a chat room only after
 * the membership check was awaited (backend/src/websocket/app.gateway.ts, handleContactJoin,
 * handleChatJoin), while leaving is always immediate: a leave can overtake a join of the same room.
 */
module ServerRooms {
  import opened Options
  import opened SocketRooms

  datatype State = State(
    /** The client, the emits on their way, and the rooms they would lead to if handled one by one. */
    client: SocketRooms.State,
    /** The rooms this connection is in. */
    rooms: set<Key>,
    /** Chat joins that passed their check and have not joined yet. */
    checked: multiset<Key>,
    /** Rooms whose leave came while a join of them was pending, and that were not joined again since. */
    late: set<Key>)

  datatype Step = Client(step: SocketRooms.Step) | FinishJoin(key: Key)

  predicate IsChat(key: Key) {
    Prefix(ChatRoom) + ":" <= key
  }

  ghost predicate Enabled(s: State, step: Step) {
    match step
    case Client(inner) => SocketRooms.Enabled(s.client, inner)
    case FinishJoin(k) => s.client.phase == Connected && s.checked[k] > 0
  }

  /** The synchronous part of handling one emit. */
  function Handled(s: State, e: Emit, admits: Key -> bool): State {
    match e
    case Join(k) =>
      if !admits(k) then s
      else if IsChat(k) then s.(checked := s.checked + multiset{k}, late := s.late - {k})
      else s.(rooms := s.rooms + {k}, late := s.late - {k})
    case Leave(k) =>
      s.(rooms := s.rooms - {k}, late := if s.checked[k] > 0 then s.late + {k} else s.late - {k})
    case SyncSince(_) => s
  }

  ghost function Next(s: State, step: Step, admits: Key -> bool): State
    requires Enabled(s, step)
  {
    match step
    case Client(inner) =>
      var t := s.(client := SocketRooms.Next(s.client, inner, admits));
      if inner.ServerTakes? then Handled(t, s.client.wire[0], admits)
      else if inner.Disconnect? then t.(rooms := {}, checked := multiset{}, late := {})
      else t
    case FinishJoin(k) => s.(rooms := s.rooms + {k}, checked := s.checked - multiset{k})
  }

  ghost predicate Init(s: State) {
    SocketRooms.Init(s.client) && s.rooms == {} && s.checked == multiset{} && s.late == {}
  }

  // ── The invariant ─────────────────────────────────────────────────────────

  /** Joined or about to be. */
  predicate Coming(s: State, k: Key) {
    k in s.rooms || s.checked[k] > 0
  }

  /** The server differs from handling the emits one by one in the late rooms, and in nothing else. */
  ghost predicate Tracks(s: State) {
    && (forall k :: Coming(s, k) <==> k in s.client.inOrder || k in s.late)
    && s.late !! s.client.inOrder
    && (s.client.phase != Connected ==> s.rooms == {} && s.checked == multiset{} && s.late == {})
  }

  ghost predicate Invariant(s: State, admits: Key -> bool) {
    SocketRooms.Invariant(s.client, admits) && Tracks(s)
  }

  lemma HandledTracks(s: State, e: Emit, admits: Key -> bool)
    requires Tracks(s) && s.client.phase == Connected
    ensures Tracks(Handled(s, e, admits).(client := s.client.(inOrder := Take(s.client.inOrder, e, admits))))
  {
    var t := Handled(s, e, admits).(client := s.client.(inOrder := Take(s.client.inOrder, e, admits)));
    forall k ensures Coming(t, k) <==> k in t.client.inOrder || k in t.late {
      assert Coming(s, k) <==> k in s.client.inOrder || k in s.late;
    }
  }

  lemma TracksTakes(s: State, admits: Key -> bool)
    requires Tracks(s) && Enabled(s, Client(ServerTakes))
    ensures Tracks(Next(s, Client(ServerTakes), admits))
  {
    TakesFirst(s.client, admits);
    hide SocketRooms.Next, Handled;
    var e := s.client.wire[0];
    HandledTracks(s, e, admits);
    HandledRest(s, SocketRooms.Next(s.client, ServerTakes, admits), e, admits);
  }

  /** Handling an emit neither reads nor changes the client. */
  lemma HandledRest(s: State, c: SocketRooms.State, e: Emit, admits: Key -> bool)
    ensures Handled(s.(client := c), e, admits) == Handled(s, e, admits).(client := c)
  {
  }

  lemma TracksOther(s: State, step: Step, admits: Key -> bool)
    requires Tracks(s) && Enabled(s, step) && step != Client(ServerTakes) && step != Client(SocketRooms.Disconnect)
    requires s.client.phase != Connected ==> s.client.inOrder == {}
    ensures Tracks(Next(s, step, admits))
  {
    var t := Next(s, step, admits);
    if step.Client? { RoomsUntouched(s.client, step.step, admits); }
    hide SocketRooms.Next, SocketRooms.Enabled;
    assert t.late == s.late && t.client.inOrder == s.client.inOrder;
    forall k ensures Coming(t, k) <==> Coming(s, k) {}
  }

  lemma TracksStep(s: State, step: Step, admits: Key -> bool)
    requires Tracks(s) && Enabled(s, step)
    requires s.client.phase != Connected ==> s.client.inOrder == {}
    ensures Tracks(Next(s, step, admits))
  {
    if step == Client(ServerTakes) {
      TracksTakes(s, admits);
    } else if step != Client(SocketRooms.Disconnect) {
      TracksOther(s, step, admits);
    }
  }

  lemma InvariantStep(s: State, step: Step, admits: Key -> bool)
    requires Invariant(s, admits) && Enabled(s, step)
    ensures Invariant(Next(s, step, admits), admits)
  {
    TracksStep(s, step, admits);
    if step.Client? { SocketRooms.InvariantStep(s.client, step.step, admits); }
  }

  // ── Runs ──────────────────────────────────────────────────────────────────

  ghost predicate ValidRun(s: State, steps: seq<Step>, admits: Key -> bool)
    decreases |steps|
  {
    steps == [] || (Enabled(s, steps[0]) && ValidRun(Next(s, steps[0], admits), steps[1..], admits))
  }

  ghost function Final(s: State, steps: seq<Step>, admits: Key -> bool): State
    requires ValidRun(s, steps, admits)
    decreases |steps|
  {
    if steps == [] then s else Final(Next(s, steps[0], admits), steps[1..], admits)
  }

  lemma {:induction false} InvariantRun(s: State, steps: seq<Step>, admits: Key -> bool)
    requires Invariant(s, admits) && ValidRun(s, steps, admits)
    ensures Invariant(Final(s, steps, admits), admits)
    decreases |steps|
  {
    if steps != [] {
      InvariantStep(s, steps[0], admits);
      InvariantRun(Next(s, steps[0], admits), steps[1..], admits);
    }
  }

  /** What the client does in a run. */
  function ClientSteps(steps: seq<Step>): seq<SocketRooms.Step> {
    if steps == [] then []
    else (if steps[0].Client? then [steps[0].step] else []) + ClientSteps(steps[1..])
  }

  /** The client's part of a run is a run of the client. */
  lemma {:induction false} ClientRuns(s: State, steps: seq<Step>, admits: Key -> bool)
    requires ValidRun(s, steps, admits)
    ensures SocketRooms.ValidRun(s.client, ClientSteps(steps), admits)
    ensures Final(s, steps, admits).client == SocketRooms.Final(s.client, ClientSteps(steps), admits)
    decreases |steps|
  {
    if steps != [] {
      var t, rest := Next(s, steps[0], admits), ClientSteps(steps[1..]);
      ClientRuns(t, steps[1..], admits);
      if steps[0].Client? {
        ClientCons(s.client, steps[0].step, rest, admits);
      } else {
        assert [] + rest == rest;
      }
    }
  }

  lemma ClientCons(c: SocketRooms.State, step: SocketRooms.Step, rest: seq<SocketRooms.Step>, admits: Key -> bool)
    requires SocketRooms.Enabled(c, step) && SocketRooms.ValidRun(SocketRooms.Next(c, step, admits), rest, admits)
    ensures SocketRooms.ValidRun(c, [step] + rest, admits)
    ensures SocketRooms.Final(c, [step] + rest, admits) ==
              SocketRooms.Final(SocketRooms.Next(c, step, admits), rest, admits)
  {
    assert ([step] + rest)[0] == step && ([step] + rest)[1..] == rest;
  }

  /** Nothing on its way and no join under way. */
  predicate Settled(s: State) {
    s.client.phase == Connected && s.client.wire == [] && s.checked == multiset{}
  }

  function Held(s: State): set<Key> {
    s.client.refs.counts.Keys
  }

  lemma SettledRooms(s: State, admits: Key -> bool)
    requires Invariant(s, admits) && Settled(s)
    ensures s.client.inOrder == Admitted(Held(s) + s.client.leaked, admits)
    ensures s.rooms == s.client.inOrder + s.late && s.late !! s.client.inOrder
  {
    forall k ensures k in s.rooms <==> k in s.client.inOrder + s.late {
      assert Coming(s, k) <==> k in s.client.inOrder || k in s.late;
    }
  }

  // ── Main results ──────────────────────────────────────────────────────────

  /** A leave is handled while a join of the same room is pending. */
  predicate Overtakes(s: State, step: Step) {
    step == Client(ServerTakes) && s.client.wire != [] && s.client.wire[0].Leave?
      && s.checked[s.client.wire[0].room] > 0
  }

  ghost predicate NoLeaveOvertakes(s: State, steps: seq<Step>, admits: Key -> bool)
    requires ValidRun(s, steps, admits)
    decreases |steps|
  {
    steps == [] || (!Overtakes(s, steps[0]) && NoLeaveOvertakes(Next(s, steps[0], admits), steps[1..], admits))
  }

  lemma {:induction false} NothingLate(s: State, steps: seq<Step>, admits: Key -> bool)
    requires ValidRun(s, steps, admits) && NoLeaveOvertakes(s, steps, admits) && s.late == {}
    ensures Final(s, steps, admits).late == {}
    decreases |steps|
  {
    if steps != [] {
      NothingLate(Next(s, steps[0], admits), steps[1..], admits);
    }
  }

  /**
   * Room holding. On every run the reference count is the number of live holders. Once settled, the
   * connection is in every held room the server admits, and otherwise only in rooms acquired and
   * released again while offline and in late ones; with no offline acquire and no overtaking leave on
   * the run, it is in exactly the held rooms.
   */
  lemma HeldRoomsAreJoined(s: State, steps: seq<Step>, admits: Key -> bool)
    requires Init(s) && ValidRun(s, steps, admits)
    ensures SocketRooms.ValidRun(s.client, ClientSteps(steps), admits)
    ensures var t := Final(s, steps, admits);
            && (forall k :: Count(t.client.refs, k) == t.client.holders[k])
            && (Settled(t) ==>
                  && t.rooms == Admitted(Held(t) + t.client.leaked, admits) + t.late
                  && (forall k :: t.client.holders[k] > 0 && admits(k) ==> k in t.rooms)
                  && (NoOfflineAcquire(s.client, ClientSteps(steps), admits) && NoLeaveOvertakes(s, steps, admits) ==>
                        t.rooms == Admitted(Held(t), admits)))
  {
    var t := Final(s, steps, admits);
    InvariantRun(s, steps, admits);
    ClientRuns(s, steps, admits);
    HeldMeansCounted(t.client, admits);
    if Settled(t) {
      SettledRooms(t, admits);
      if NoOfflineAcquire(s.client, ClientSteps(steps), admits) && NoLeaveOvertakes(s, steps, admits) {
        NothingLeaks(s.client, ClientSteps(steps), admits);
        NothingLate(s, steps, admits);
        assert Held(t) + {} == Held(t);
      }
    }
  }

  /**
   * Settled, the server has exactly the held rooms if and only if nothing is late and no leaked room lacks a
   * holder.
   */
  lemma SettledIsExactIff(s: State, admits: Key -> bool)
    requires Invariant(s, admits) && Settled(s)
    ensures s.rooms == Admitted(Held(s), admits)
            <==> s.late == {} && forall k :: k in s.client.leaked && admits(k) ==> s.client.holders[k] > 0
  {
    SettledRooms(s, admits);
    HeldMeansCounted(s.client, admits);
    ExtraRoomsIff(Held(s), s.client.leaked, admits);
    LateRoomsIff(Admitted(Held(s), admits), s.client.inOrder, s.late);
  }

  lemma LateRoomsIff(held: set<Key>, inOrder: set<Key>, late: set<Key>)
    requires held <= inOrder && late !! inOrder
    ensures inOrder + late == held <==> inOrder == held && late == {}
  {
    if inOrder + late == held {
      forall k ensures k !in late { assert k in late ==> k in inOrder + late; }
      assert inOrder + {} == inOrder;
    }
  }

  /** The exact condition, on every run from the start. */
  lemma HeldRoomsAreExactIff(s: State, steps: seq<Step>, admits: Key -> bool)
    requires Init(s) && ValidRun(s, steps, admits) && Settled(Final(s, steps, admits))
    ensures var t := Final(s, steps, admits);
            t.rooms == Admitted(Held(t), admits)
            <==> t.late == {} && forall k :: k in t.client.leaked && admits(k) ==> t.client.holders[k] > 0
  {
    InvariantRun(s, steps, admits);
    SettledIsExactIff(Final(s, steps, admits), admits);
  }

  // ── Reconnects ────────────────────────────────────────────────────────────

  /** Steps of the server alone. */
  predicate ByServer(step: Step) {
    step == Client(ServerTakes) || step.FinishJoin?
  }

  ghost predicate ServerRun(s: State, steps: seq<Step>, admits: Key -> bool) {
    ValidRun(s, steps, admits) && forall i :: 0 <= i < |steps| ==> ByServer(steps[i])
  }

  ghost predicate NoLeaves(wire: seq<Emit>) {
    forall i :: 0 <= i < |wire| ==> !wire[i].Leave?
  }

  /** The server works off a wire without leaves: nothing gets late, and the rooms are those of the wire in order. */
  lemma {:induction false} ServerDrains(s: State, steps: seq<Step>, admits: Key -> bool)
    requires ServerRun(s, steps, admits) && NoLeaves(s.client.wire) && s.late == {}
    ensures var t := Final(s, steps, admits);
            && t.late == {} && NoLeaves(t.client.wire)
            && t.client.refs == s.client.refs && t.client.holders == s.client.holders
            && Drained(t.client.inOrder, t.client.wire, admits) == Drained(s.client.inOrder, s.client.wire, admits)
    decreases |steps|
  {
    if steps != [] {
      var t := Next(s, steps[0], admits);
      if steps[0].Client? {
        DrainedFirst(s.client.inOrder, s.client.wire, admits);
        assert s.client.wire[0] == s.client.wire[0] && !s.client.wire[0].Leave?;
      }
      ServerDrains(t, steps[1..], admits);
    }
  }

  lemma {:induction false} RejoinsOnlyJoin(keys: seq<Key>)
    ensures forall i :: 0 <= i < |Rejoins(keys)| ==> Rejoins(keys)[i].Join?
  {
    if keys != [] { RejoinsOnlyJoin(keys[..|keys| - 1]); }
  }

  /** Where a reconnect leads: to the buffered joins and the held rooms, whatever the order in which joins finish. */
  lemma ReconnectSettles(s: State, more: seq<Step>, admits: Key -> bool)
    requires Invariant(s, admits) && s.client.phase == Offline
    requires ServerRun(Next(s, Client(Connect), admits), more, admits)
    requires Settled(Final(Next(s, Client(Connect), admits), more, admits))
    ensures var t := Final(Next(s, Client(Connect), admits), more, admits);
            t.rooms == Admitted(Joined(s.client.buffer) + Held(s), admits) && t.client.holders == s.client.holders
  {
    var u := Next(s, Client(Connect), admits);
    var t := Final(u, more, admits);
    RejoinsOnlyJoin(s.client.refs.keys);
    assert NoLeaves(u.client.wire);
    InvariantStep(s, Client(Connect), admits);
    ServerDrains(u, more, admits);
    InvariantRun(u, more, admits);
    SettledRooms(t, admits);
    ReconnectJoins(s.client, admits);
    assert Drained(t.client.inOrder, [], admits) == t.client.inOrder;
  }

  /**
   * What a reconnect joins, exactly: the held rooms and no other, if and only if every admitted room
   * whose join was buffered while offline is still held at the reconnect.
   */
  lemma ReconnectIsExactIff(s: State, more: seq<Step>, admits: Key -> bool)
    requires Invariant(s, admits) && s.client.phase == Offline
    requires ServerRun(Next(s, Client(Connect), admits), more, admits)
    requires Settled(Final(Next(s, Client(Connect), admits), more, admits))
    ensures Final(Next(s, Client(Connect), admits), more, admits).rooms == Admitted(Held(s), admits)
            <==> forall k :: k in Joined(s.client.buffer) && admits(k) ==> s.client.holders[k] > 0
  {
    ReconnectSettles(s, more, admits);
    ReconnectJoins(s.client, admits);
    ReconnectInOrderIff(s.client, admits);
  }

  /** The server can always work off what it has. */
  lemma {:induction false} ServerCanSettle(s: State, admits: Key -> bool) returns (more: seq<Step>)
    requires s.client.phase == Connected
    ensures ServerRun(s, more, admits) && Settled(Final(s, more, admits))
    decreases 2 * |s.client.wire| + |s.checked|
  {
    if Settled(s) {
      more := [];
    } else {
      var step := Client(ServerTakes);
      if s.client.wire == [] {
        var k :| k in s.checked;
        step := FinishJoin(k);
      }
      var rest := ServerCanSettle(Next(s, step, admits), admits);
      more := [step] + rest;
      assert more[0] == step && more[1..] == rest;
    }
  }

  // ── The two failing families ──────────────────────────────────────────────

  /** A room acquired and given up again: the client's part alone is concerned. */
  ghost function Touched(s: State, key: Key, admits: Key -> bool): State
    requires PlainKey(key)
  {
    var acquired := SocketRooms.Next(s.client, Acquire(key), admits);
    s.(client := SocketRooms.Next(acquired, Release(key), admits))
  }

  lemma TouchedIsRun(s: State, key: Key, admits: Key -> bool)
    requires Invariant(s, admits) && PlainKey(key)
    ensures var acquired := Next(s, Client(Acquire(key)), admits);
            && Enabled(acquired, Client(Release(key)))
            && Next(acquired, Client(Release(key)), admits) == Touched(s, key, admits)
    ensures Invariant(Touched(s, key, admits), admits)
  {
    var acquired := Next(s, Client(Acquire(key)), admits);
    InvariantStep(s, Client(Acquire(key)), admits);
    InvariantStep(acquired, Client(Release(key)), admits);
  }

  /** However the server works off the next reconnect, it ends with this room joined and held by nobody. */
  ghost predicate JoinsForNobody(s: State, more: seq<Step>, key: Key, admits: Key -> bool) {
    && Enabled(s, Client(Connect))
    && var u := Next(s, Client(Connect), admits);
       ServerRun(u, more, admits) && Settled(Final(u, more, admits)) ==>
         var t := Final(u, more, admits);
         key in t.rooms && t.client.holders[key] == 0
  }

  lemma BufferedJoinLands(s: State, more: seq<Step>, key: Key, admits: Key -> bool)
    requires Invariant(s, admits) && s.client.phase == Offline
    requires key in Joined(s.client.buffer) && admits(key) && s.client.holders[key] == 0
    ensures JoinsForNobody(s, more, key, admits)
  {
    assert Enabled(s, Client(Connect));
    hide Next, Invariant;
    var u := Next(s, Client(Connect), admits);
    if ServerRun(u, more, admits) && Settled(Final(u, more, admits)) { ReconnectSettles(s, more, admits); }
  }

  /** Acquired and given up while offline: joined on reconnect, in whatever order, although nobody holds it. */
  lemma OfflineAcquireLeaks(s: State, key: Key, more: seq<Step>, admits: Key -> bool)
    requires Invariant(s, admits) && s.client.phase == Offline
    requires PlainKey(key) && admits(key) && s.client.holders[key] == 0
    ensures JoinsForNobody(Touched(s, key, admits), more, key, admits)
  {
    var left := Touched(s, key, admits);
    TouchedIsRun(s, key, admits);
    OfflineBuffersJoin(s.client, key, admits);
    hide SocketRooms.Next, SocketRooms.Enabled, SocketRooms.Invariant, Next, Tracks, JoinsForNobody;
    assert left.client.buffer[|s.client.buffer|] == Join(key);
    assert key in Joined(left.client.buffer);
    BufferedJoinLands(left, more, key, admits);
  }

  lemma TakesJoin(s: State, key: Key, rest: seq<Emit>, admits: Key -> bool)
    requires s.client.phase == Connected && s.client.wire == [Join(key)] + rest && IsChat(key) && admits(key)
    ensures Enabled(s, Client(ServerTakes))
    ensures var t := Next(s, Client(ServerTakes), admits);
            && t.client == s.client.(wire := rest, inOrder := t.client.inOrder)
            && t.checked == s.checked + multiset{key} && t.rooms == s.rooms
  {
  }

  lemma TakesLeave(s: State, key: Key, rest: seq<Emit>, admits: Key -> bool)
    requires s.client.phase == Connected && s.client.wire == [Leave(key)] + rest
    ensures Enabled(s, Client(ServerTakes))
    ensures var t := Next(s, Client(ServerTakes), admits);
            && t.client == s.client.(wire := rest, inOrder := t.client.inOrder)
            && t.checked == s.checked && t.rooms == s.rooms - {key}
  {
  }

  lemma RunCons(s: State, step: Step, rest: seq<Step>, admits: Key -> bool)
    requires Enabled(s, step) && ValidRun(Next(s, step, admits), rest, admits)
    ensures ValidRun(s, [step] + rest, admits)
              && Final(s, [step] + rest, admits) == Final(Next(s, step, admits), rest, admits)
  {
    hide Next, Enabled;
    assert ([step] + rest)[0] == step && ([step] + rest)[1..] == rest;
  }

  function OvertakingSteps(key: Key): seq<Step> {
    [Client(ServerTakes)] + ([Client(ServerTakes)] + ([FinishJoin(key)] + []))
  }

  /**
   * Opened and closed while connected: the leave overtakes the checked join, which then joins a chat
   * room that nobody holds, although nothing was acquired offline.
   */
  lemma CloseOvertakesOpen(s: State, key: Key, admits: Key -> bool)
    requires Invariant(s, admits) && Settled(s)
    requires PlainKey(key) && IsChat(key) && admits(key) && s.client.holders[key] == 0
    ensures ValidRun(Touched(s, key, admits), OvertakingSteps(key), admits)
    ensures var t := Final(Touched(s, key, admits), OvertakingSteps(key), admits);
            Settled(t) && key in t.rooms && t.client.holders[key] == 0 && t.client.leaked == s.client.leaked - {key}
  {
    OpenThenClose(s.client, key, admits);
    var sent := Touched(s, key, admits);
    hide SocketRooms.Next, SocketRooms.Enabled, SocketRooms.Invariant, Tracks;
    assert sent.client.wire == [Join(key)] + [Leave(key)];
    TakesJoin(sent, key, [Leave(key)], admits);
    var joining := Next(sent, Client(ServerTakes), admits);
    assert joining.client.wire == [Leave(key)] + [];
    TakesLeave(joining, key, [], admits);
    var leaving := Next(joining, Client(ServerTakes), admits);
    assert leaving.checked == multiset{key};
    RunCons(leaving, FinishJoin(key), [], admits);
    RunCons(joining, Client(ServerTakes), [FinishJoin(key)] + [], admits);
    RunCons(sent, Client(ServerTakes), [Client(ServerTakes)] + ([FinishJoin(key)] + []), admits);
  }
}
