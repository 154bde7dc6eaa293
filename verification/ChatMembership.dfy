/**
 * Chat room membership on the server: gated joins and the live kick
 * (backend/src/websocket/app.gateway.ts, backend/src/events/app.event-handler.ts).
 */
module ChatMembership {
  import opened Options

  type UserId = string
  type SocketId = string
  type ConversationId = string

  datatype Room = UserRoom(user: UserId) | ChatRoom(conversation: ConversationId)

  datatype Membership = Membership(conversation: ConversationId, user: UserId)

  /** One event delivered to one socket. */
  datatype Delivery = Delivery(socket: SocketId, event: Event)

  datatype Event =
    | MessageNew(conversation: ConversationId, messageId: string)
    | Notification(conversation: ConversationId, messageId: string, sender: UserId)
    | MembershipRemoved(conversation: ConversationId)

  /** A chat:join that passed the membership check and has not joined yet. */
  datatype CheckedJoin = CheckedJoin(socket: SocketId, conversation: ConversationId)

  datatype State = State(
    /** The user behind each connected socket. */
    users: map<SocketId, UserId>,
    /** Room occupancy: (room, socket) pairs. */
    rooms: set<(Room, SocketId)>,
    /** Active memberships in the database. */
    members: set<Membership>,
    /** chat.membership.removed events not handled yet. */
    removals: seq<Membership>,
    /** Joins under way, each counted as often as it was checked. Those of a closed socket never finish. */
    checkedJoins: multiset<CheckedJoin>)

  function SocketsIn(rooms: set<(Room, SocketId)>, room: Room): set<SocketId> {
    set r | r in rooms && r.0 == room :: r.1
  }

  /** `in(ROOMS.user(userId)).socketsLeave(ROOMS.chat(conversationId))`. */
  function Kicked(rooms: set<(Room, SocketId)>, m: Membership): set<(Room, SocketId)> {
    set r | r in rooms && !(r.0 == ChatRoom(m.conversation) && (UserRoom(m.user), r.1) in rooms)
  }

  // ── The handlers ──────────────────────────────────────────────────────────

  class Gateway {
    var users: map<SocketId, UserId>
    var rooms: set<(Room, SocketId)>
    var delivered: seq<Delivery>

    constructor ()
      ensures users == map[] && rooms == {} && delivered == []
    {
      users, rooms, delivered := map[], {}, [];
    }

    /** The emit order inside one room is the transport's; here each receiver gets the event once. */
    method EmitTo(room: Room, event: Event)
      modifies this`delivered
      ensures old(delivered) <= delivered && Reaches(delivered[|old(delivered)|..], SocketsIn(rooms, room), event)
    {
      var sockets := SocketsIn(rooms, room);
      var left := sockets;
      ghost var n, done: set<SocketId> := |delivered|, {};
      while left != {}
        invariant left !! done && left + done == sockets
        invariant old(delivered) <= delivered && n == |old(delivered)| && Reaches(delivered[n..], done, event)
        decreases left
      {
        var socket :| socket in left;
        ReachesOneMore(delivered[n..], done, socket, event);
        assert (delivered + [Delivery(socket, event)])[n..] == delivered[n..] + [Delivery(socket, event)];
        left, done := left - {socket}, done + {socket};
        delivered := delivered + [Delivery(socket, event)];
      }
      assert done == sockets;
    }

    /** A socket with a valid token enters its user's personal room; any other is turned away. */
    method HandleConnection(socket: SocketId, token: Option<UserId>) returns (accepted: bool)
      modifies this`users, this`rooms
      ensures accepted == token.Some?
      ensures users == (if accepted then old(users)[socket := token.value] else old(users))
      ensures rooms == old(rooms) + (if accepted then {(UserRoom(token.value), socket)} else {})
    {
      if token.None? { return false; }
      users := users[socket := token.value];
      rooms := rooms + {(UserRoom(token.value), socket)};
      return true;
    }

    /** Members only; a refused join changes nothing. */
    method HandleChatJoin(socket: SocketId, conversation: ConversationId, members: set<Membership>)
      returns (joined: bool)
      modifies this`rooms
      ensures joined <==> socket in users && conversation != "" && Membership(conversation, users[socket]) in members
      ensures rooms == old(rooms) + (if joined then {(ChatRoom(conversation), socket)} else {})
    {
      if socket !in users || conversation == "" { return false; }
      if Membership(conversation, users[socket]) !in members { return false; }
      rooms := rooms + {(ChatRoom(conversation), socket)};
      return true;
    }

    method HandleChatLeave(socket: SocketId, conversation: ConversationId)
      modifies this`rooms
      ensures rooms == old(rooms) - (if conversation == "" then {} else {(ChatRoom(conversation), socket)})
    {
      if conversation == "" { return; }
      rooms := rooms - {(ChatRoom(conversation), socket)};
    }

    /** The live kick: tell every tab of the user, then force all of them out of the conversation. */
    method OnMembershipRemoved(m: Membership)
      modifies this`rooms, this`delivered
      ensures rooms == Kicked(old(rooms), m)
      ensures forall r, k :: (r, k) in rooms <==>
                (r, k) in old(rooms) && !(r == ChatRoom(m.conversation) && (UserRoom(m.user), k) in old(rooms))
      ensures old(delivered) <= delivered
      ensures Reaches(delivered[|old(delivered)|..], SocketsIn(old(rooms), UserRoom(m.user)),
                MembershipRemoved(m.conversation))
    {
      EmitTo(UserRoom(m.user), MembershipRemoved(m.conversation));
      rooms := Kicked(rooms, m);
    }

    /** The message goes to the room, the notification to every active member but the sender. */
    method OnChatMessageCreated(conversation: ConversationId, messageId: string, sender: UserId, memberIds: seq<UserId>)
      modifies this`delivered
      ensures old(delivered) <= delivered
      ensures |delivered| == |old(delivered)| + |SocketsIn(rooms, ChatRoom(conversation))|
                + Notified(rooms, memberIds, sender)
      ensures forall d :: d in delivered[|old(delivered)|..] <==>
                || (d.event == MessageNew(conversation, messageId) && (ChatRoom(conversation), d.socket) in rooms)
                || (d.event == Notification(conversation, messageId, sender)
                    && exists u :: u in memberIds && u != sender && (UserRoom(u), d.socket) in rooms)
    {
      EmitTo(ChatRoom(conversation), MessageNew(conversation, messageId));
      var event := Notification(conversation, messageId, sender);
      for i := 0 to |memberIds|
        invariant old(delivered) <= delivered
        invariant |delivered| == |old(delivered)| + |SocketsIn(rooms, ChatRoom(conversation))|
                    + Notified(rooms, memberIds[..i], sender)
        invariant forall d :: d in delivered[|old(delivered)|..] <==>
                    || (d.event == MessageNew(conversation, messageId) && (ChatRoom(conversation), d.socket) in rooms)
                    || (d.event == event
                        && exists u :: u in memberIds[..i] && u != sender && (UserRoom(u), d.socket) in rooms)
      {
        assert memberIds[..i + 1] == memberIds[..i] + [memberIds[i]];
        assert memberIds[..i + 1][..i] == memberIds[..i];
        if memberIds[i] != sender {
          ghost var before := delivered;
          EmitTo(UserRoom(memberIds[i]), event);
          assert delivered[|old(delivered)|..] == before[|old(delivered)|..] + delivered[|before|..];
        }
      }
      assert memberIds[..|memberIds|] == memberIds;
    }
  }

  /** The batch delivers the event to exactly these sockets, once each. */
  ghost predicate Reaches(batch: seq<Delivery>, sockets: set<SocketId>, event: Event) {
    && |batch| == |sockets|
    && forall d :: d in batch <==> d.event == event && d.socket in sockets
  }

  /** How many sockets the members other than the sender have, a socket counted once for each of them. */
  function Notified(rooms: set<(Room, SocketId)>, memberIds: seq<UserId>, sender: UserId): nat
    decreases |memberIds|
  {
    if memberIds == [] then 0 else
      var u := memberIds[|memberIds| - 1];
      Notified(rooms, memberIds[..|memberIds| - 1], sender)
        + (if u == sender then 0 else |SocketsIn(rooms, UserRoom(u))|)
  }

  lemma ReachesOneMore(batch: seq<Delivery>, sockets: set<SocketId>, socket: SocketId, event: Event)
    requires Reaches(batch, sockets, event) && socket !in sockets
    ensures Reaches(batch + [Delivery(socket, event)], sockets + {socket}, event)
  {
  }

  // ── The protocol ──────────────────────────────────────────────────────────

  datatype Step =
    | Connect(socket: SocketId, user: UserId)
    | Disconnect(socket: SocketId)
    | AddMember(membership: Membership)
    | RemoveMember(membership: Membership)
    | Leave(socket: SocketId, conversation: ConversationId)
    /** chat:join with its check and its join in one step. */
    | Join(socket: SocketId, conversation: ConversationId)
    /** chat:join split at the await of the membership check. */
    | CheckJoin(socket: SocketId, conversation: ConversationId)
    | FinishJoin(join: CheckedJoin)
    | HandleRemoval(index: nat)

  predicate IsMember(s: State, socket: SocketId, conversation: ConversationId) {
    socket in s.users && Membership(conversation, s.users[socket]) in s.members
  }

  predicate Enabled(s: State, step: Step) {
    match step
    case Connect(k, _) => k !in s.users && forall j :: j in s.checkedJoins ==> j.socket != k
    case Disconnect(k) => k in s.users
    case AddMember(_) => true
    case RemoveMember(_) => true
    case Leave(k, _) => k in s.users
    case Join(k, c) => k in s.users
    case CheckJoin(k, c) => IsMember(s, k, c)
    case FinishJoin(j) => j in s.checkedJoins && j.socket in s.users
    case HandleRemoval(i) => i < |s.removals|
  }

  function Next(s: State, step: Step): State
    requires Enabled(s, step)
  {
    match step
    case Connect(k, u) => s.(users := s.users[k := u], rooms := s.rooms + {(UserRoom(u), k)})
    case Disconnect(k) =>
      s.(users := s.users - {k}, rooms := (set r | r in s.rooms && r.1 != k))
    case AddMember(m) => s.(members := s.members + {m})
    case RemoveMember(m) => s.(members := s.members - {m}, removals := s.removals + [m])
    case Leave(k, c) => s.(rooms := s.rooms - {(ChatRoom(c), k)})
    case Join(k, c) => if IsMember(s, k, c) then s.(rooms := s.rooms + {(ChatRoom(c), k)}) else s
    case CheckJoin(k, c) => s.(checkedJoins := s.checkedJoins + multiset{CheckedJoin(k, c)})
    case FinishJoin(j) =>
      s.(rooms := s.rooms + {(ChatRoom(j.conversation), j.socket)}, checkedJoins := s.checkedJoins - multiset{j})
    case HandleRemoval(i) =>
      s.(rooms := Kicked(s.rooms, s.removals[i]), removals := s.removals[..i] + s.removals[i + 1..])
  }

  /** The one-step join is the check followed at once by the join. */
  lemma JoinIsCheckThenFinish(s: State, socket: SocketId, conversation: ConversationId)
    requires IsMember(s, socket, conversation)
    ensures var checked := Next(s, CheckJoin(socket, conversation));
            && Enabled(checked, FinishJoin(CheckedJoin(socket, conversation)))
            && Next(checked, FinishJoin(CheckedJoin(socket, conversation))) == Next(s, Join(socket, conversation))
  {
    var j := CheckedJoin(socket, conversation);
    assert s.checkedJoins + multiset{j} - multiset{j} == s.checkedJoins;
  }

  // ── Whole runs ────────────────────────────────────────────────────────────

  ghost predicate ValidRun(s: State, steps: seq<Step>)
    decreases |steps|
  {
    steps == [] || (Enabled(s, steps[0]) && ValidRun(Next(s, steps[0]), steps[1..]))
  }

  ghost function Final(s: State, steps: seq<Step>): State
    requires ValidRun(s, steps)
    decreases |steps|
  {
    if steps == [] then s else Final(Next(s, steps[0]), steps[1..])
  }

  /** Every socket is in the personal room of its user, and only connected sockets are in rooms. */
  ghost predicate Placed(s: State) {
    && (forall u, k :: (UserRoom(u), k) in s.rooms <==> k in s.users && s.users[k] == u)
    && (forall c, k :: (ChatRoom(c), k) in s.rooms ==> k in s.users)
  }

  lemma PlacedStep(s: State, step: Step)
    requires Placed(s) && Enabled(s, step)
    ensures Placed(Next(s, step))
  {
  }

  /** Who is connected and who is a member changes by the step that says so and by no other. */
  lemma UsersAndMembersChangeIff(s: State, step: Step, socket: SocketId, user: UserId, m: Membership)
    requires Enabled(s, step)
    ensures var t := Next(s, step);
            && (socket in t.users && t.users[socket] == user
                <==> || step == Connect(socket, user)
                     || (socket in s.users && s.users[socket] == user && step != Disconnect(socket)))
            && (m in t.members <==> step == AddMember(m) || (m in s.members && step != RemoveMember(m)))
  {
  }

  // ── Exactly which sockets a step moves ────────────────────────────────────

  /** The step puts the socket into the conversation's room. */
  predicate Enters(s: State, step: Step, socket: SocketId, conversation: ConversationId) {
    || (step == Join(socket, conversation)
        && socket in s.users && Membership(conversation, s.users[socket]) in s.members)
    || step == FinishJoin(CheckedJoin(socket, conversation))
  }

  /** The step takes a socket of the room out: it leaves, it closes, or its own user's removal is handled. */
  predicate Exits(s: State, step: Step, socket: SocketId, conversation: ConversationId) {
    || step == Leave(socket, conversation)
    || step == Disconnect(socket)
    || (step.HandleRemoval? && step.index < |s.removals| && s.removals[step.index].conversation == conversation
        && socket in s.users && s.users[socket] == s.removals[step.index].user)
  }

  /** After a step a room holds those who enter and those who were there and do not exit: everyone else is spared. */
  lemma RoomsChangeIff(s: State, step: Step)
    requires Placed(s) && Enabled(s, step)
    ensures forall c, k ::
              (ChatRoom(c), k) in Next(s, step).rooms
              <==> Enters(s, step, k, c) || ((ChatRoom(c), k) in s.rooms && !Exits(s, step, k, c))
  {
    forall c, k ensures (ChatRoom(c), k) in Next(s, step).rooms
                        <==> Enters(s, step, k, c) || ((ChatRoom(c), k) in s.rooms && !Exits(s, step, k, c)) {
      assert (ChatRoom(c), k) in s.rooms ==> k in s.users;
    }
  }

  /** A kick takes the removed user's sockets out of that one room and touches no other pair. */
  lemma KickSparesOthers(s: State, i: nat, room: Room, socket: SocketId)
    requires Placed(s) && i < |s.removals|
    ensures var m := s.removals[i];
            (room, socket) in Next(s, HandleRemoval(i)).rooms
            <==> (room, socket) in s.rooms
                 && (room != ChatRoom(m.conversation) || socket !in s.users || s.users[socket] != m.user)
  {
  }

  // ── The live kick ─────────────────────────────────────────────────────────

  /** None of the user's sockets, in any tab, is in the conversation's room. */
  ghost predicate Out(s: State, m: Membership) {
    forall k :: k in s.users && s.users[k] == m.user ==> (ChatRoom(m.conversation), k) !in s.rooms
  }

  /** A chat:join of one of the user's sockets for the conversation passed its check and has not joined yet. */
  ghost predicate JoinPending(s: State, m: Membership) {
    exists k :: k in s.users && s.users[k] == m.user && CheckedJoin(k, m.conversation) in s.checkedJoins
  }

  ghost predicate Never(steps: seq<Step>, step: Step) {
    forall i :: 0 <= i < |steps| ==> steps[i] != step
  }

  /** Whatever happens short of a new membership, the user's sockets stay out of the room. */
  ghost predicate OutForGood(s: State, m: Membership) {
    forall steps :: ValidRun(s, steps) && Never(steps, AddMember(m)) ==> Out(Final(s, steps), m)
  }

  lemma KickPutsOut(s: State, i: nat)
    requires Placed(s) && i < |s.removals|
    ensures Out(Next(s, HandleRemoval(i)), s.removals[i])
  {
  }

  lemma OutStep(s: State, step: Step, m: Membership)
    requires Placed(s) && Enabled(s, step) && step != AddMember(m)
    requires Out(s, m) && m !in s.members && !JoinPending(s, m)
    ensures var t := Next(s, step); Out(t, m) && m !in t.members && !JoinPending(t, m)
  {
    var t := Next(s, step);
    forall k | k in t.users && t.users[k] == m.user
      ensures (ChatRoom(m.conversation), k) !in t.rooms && CheckedJoin(k, m.conversation) !in t.checkedJoins
    {
      if k in s.users {
        assert CheckedJoin(k, m.conversation) !in s.checkedJoins;
      } else {
        assert step == Connect(k, m.user);
      }
    }
  }

  lemma {:induction false} StaysOut(s: State, steps: seq<Step>, m: Membership)
    requires Placed(s) && ValidRun(s, steps) && Never(steps, AddMember(m))
    requires Out(s, m) && m !in s.members && !JoinPending(s, m)
    ensures Out(Final(s, steps), m)
    decreases |steps|
  {
    if steps != [] {
      PlacedStep(s, steps[0]);
      OutStep(s, steps[0], m);
      StaysOut(Next(s, steps[0]), steps[1..], m);
    }
  }

  /** A user who is out and no member stays out for good if and only if none of their checked joins is pending. */
  lemma StaysOutIff(s: State, m: Membership)
    requires Placed(s) && Out(s, m) && m !in s.members
    ensures OutForGood(s, m) <==> !JoinPending(s, m)
  {
    if k :| k in s.users && s.users[k] == m.user && CheckedJoin(k, m.conversation) in s.checkedJoins {
      var j := CheckedJoin(k, m.conversation);
      var t := Next(s, FinishJoin(j));
      assert [FinishJoin(j)][1..] == [];
      assert ValidRun(t, []) && Final(t, []) == t;
      assert ValidRun(s, [FinishJoin(j)]) && Final(s, [FinishJoin(j)]) == t;
      assert Never([FinishJoin(j)], AddMember(m));
      assert (ChatRoom(m.conversation), k) in t.rooms && k in t.users && t.users[k] == m.user;
    } else {
      forall steps | ValidRun(s, steps) && Never(steps, AddMember(m)) ensures Out(Final(s, steps), m) {
        StaysOut(s, steps, m);
      }
    }
  }

  /**
   * The live kick, with joins split at their await. Once the removal of a user is handled, no socket of
   * that user, in any tab and however reconnected, is in the room again until the user is made a member
   * again, if and only if no join of theirs had passed its check and was still to finish.
   */
  lemma LiveKickIff(s: State, i: nat)
    requires Placed(s) && i < |s.removals| && s.removals[i] !in s.members
    ensures OutForGood(Next(s, HandleRemoval(i)), s.removals[i]) <==> !JoinPending(s, s.removals[i])
  {
    PlacedStep(s, HandleRemoval(i));
    KickPutsOut(s, i);
    StaysOutIff(Next(s, HandleRemoval(i)), s.removals[i]);
  }

  /** The join that escapes is reachable from every quiet state: check, removal, kick, join. */
  lemma LateJoinEscapesKick(s: State, socket: SocketId, conversation: ConversationId)
    requires IsMember(s, socket, conversation) && s.removals == []
    ensures var m, j := Membership(conversation, s.users[socket]), CheckedJoin(socket, conversation);
            var checked := Next(s, CheckJoin(socket, conversation));
            var removed := Next(checked, RemoveMember(m));
            && Enabled(removed, HandleRemoval(0))
            && var kicked := Next(removed, HandleRemoval(0));
               && Enabled(kicked, FinishJoin(j))
               && var t := Next(kicked, FinishJoin(j));
                  (ChatRoom(conversation), socket) in t.rooms && m !in t.members && t.removals == []
  {
    var m := Membership(conversation, s.users[socket]);
    assert ([] + [m])[..0] + ([] + [m])[1..] == [];
  }

  predicate JoinsRoom(step: Step, conversation: ConversationId) {
    (step.Join? && step.conversation == conversation) || (step.FinishJoin? && step.join.conversation == conversation)
  }

  /** Being made a member is not enough to be back in the room: only a join of that room is. */
  lemma {:induction false} BackOnlyByJoining(s: State, steps: seq<Step>, m: Membership)
    requires Placed(s) && ValidRun(s, steps) && Out(s, m)
    requires forall i :: 0 <= i < |steps| ==> !JoinsRoom(steps[i], m.conversation)
    ensures Out(Final(s, steps), m)
    decreases |steps|
  {
    if steps != [] {
      PlacedStep(s, steps[0]);
      BackOnlyByJoining(Next(s, steps[0]), steps[1..], m);
    }
  }

  // ── Who may receive a room's events ───────────────────────────────────────

  /** A socket may be in a conversation's room: its user is a member, or the kick is still to come. */
  ghost predicate Justified(s: State, socket: SocketId, conversation: ConversationId) {
    && socket in s.users
    && (Membership(conversation, s.users[socket]) in s.members
       || Membership(conversation, s.users[socket]) in s.removals)
  }

  ghost predicate RoomsJustified(s: State) {
    forall c, k :: (ChatRoom(c), k) in s.rooms ==> Justified(s, k, c)
  }

  /** Everyone in a room may be there, now and after any one join under way finishes. */
  ghost predicate Sound(s: State) {
    RoomsJustified(s) && forall j :: Enabled(s, FinishJoin(j)) ==> RoomsJustified(Next(s, FinishJoin(j)))
  }

  /** The kick comes between the check and the join of somebody who is no member and has no further kick to come. */
  ghost predicate Overtakes(s: State, step: Step) {
    && step.HandleRemoval? && step.index < |s.removals|
    && var m := s.removals[step.index];
       m !in s.members && m !in s.removals[..step.index] + s.removals[step.index + 1..] && JoinPending(s, m)
  }

  ghost predicate JoinsJustified(s: State) {
    forall j :: j in s.checkedJoins && j.socket in s.users ==> Justified(s, j.socket, j.conversation)
  }

  lemma SoundMeansJustified(s: State)
    requires Placed(s)
    ensures Sound(s) <==> RoomsJustified(s) && JoinsJustified(s)
  {
    forall j | j in s.checkedJoins && j.socket in s.users && RoomsJustified(s)
      ensures RoomsJustified(Next(s, FinishJoin(j))) <==> Justified(s, j.socket, j.conversation)
    {
      var t := Next(s, FinishJoin(j));
      assert (ChatRoom(j.conversation), j.socket) in t.rooms;
      assert Justified(t, j.socket, j.conversation) <==> Justified(s, j.socket, j.conversation);
      forall c, k | (ChatRoom(c), k) in s.rooms ensures Justified(t, k, c) { assert Justified(s, k, c); }
    }
    if Sound(s) {
      forall j | j in s.checkedJoins && j.socket in s.users ensures Justified(s, j.socket, j.conversation) {
        assert Enabled(s, FinishJoin(j));
      }
    }
  }

  /** Who may be there stays so, but for the user whose removal this step handles. */
  lemma JustifiedStep(s: State, step: Step, socket: SocketId, conversation: ConversationId)
    requires Enabled(s, step) && Justified(s, socket, conversation) && step != Disconnect(socket)
    ensures || Justified(Next(s, step), socket, conversation)
            || (step.HandleRemoval? && s.removals[step.index] == Membership(conversation, s.users[socket]))
  {
    if step.HandleRemoval? {
      var m := Membership(conversation, s.users[socket]);
      assert m in s.removals && m != s.removals[step.index] ==> m in Next(s, step).removals;
    }
  }

  lemma SoundStepIff(s: State, step: Step)
    requires Placed(s) && Sound(s) && Enabled(s, step)
    ensures Sound(Next(s, step)) <==> !Overtakes(s, step)
  {
    var t := Next(s, step);
    PlacedStep(s, step);
    SoundMeansJustified(s);
    SoundMeansJustified(t);
    if Overtakes(s, step) {
      var m := s.removals[step.index];
      var k :| k in s.users && s.users[k] == m.user && CheckedJoin(k, m.conversation) in s.checkedJoins;
      assert CheckedJoin(k, m.conversation) in t.checkedJoins && !Justified(t, k, m.conversation);
    } else {
      RoomsStayJustified(s, step);
      JoinsStayJustified(s, step);
    }
  }

  lemma RoomsStayJustified(s: State, step: Step)
    requires Placed(s) && Enabled(s, step) && RoomsJustified(s) && JoinsJustified(s)
    ensures RoomsJustified(Next(s, step))
  {
    var t := Next(s, step);
    forall c, k | (ChatRoom(c), k) in t.rooms ensures Justified(t, k, c) {
      if (ChatRoom(c), k) in s.rooms || step == FinishJoin(CheckedJoin(k, c)) {
        JustifiedStep(s, step, k, c);
      }
    }
  }

  lemma JoinsStayJustified(s: State, step: Step)
    requires Placed(s) && Enabled(s, step) && JoinsJustified(s) && !Overtakes(s, step)
    ensures JoinsJustified(Next(s, step))
  {
    var t := Next(s, step);
    forall j | j in t.checkedJoins && j.socket in t.users ensures Justified(t, j.socket, j.conversation) {
      if j in s.checkedJoins {
        JustifiedStep(s, step, j.socket, j.conversation);
        if step.HandleRemoval? && s.removals[step.index] == Membership(j.conversation, s.users[j.socket]) {
          assert CheckedJoin(j.socket, j.conversation) == j;
        }
      }
    }
  }

  ghost predicate AlwaysSound(s: State, steps: seq<Step>)
    requires ValidRun(s, steps)
    decreases |steps|
  {
    Sound(s) && (steps == [] || AlwaysSound(Next(s, steps[0]), steps[1..]))
  }

  ghost predicate NeverOvertakes(s: State, steps: seq<Step>)
    requires ValidRun(s, steps)
    decreases |steps|
  {
    steps == [] || (!Overtakes(s, steps[0]) && NeverOvertakes(Next(s, steps[0]), steps[1..]))
  }

  lemma {:induction false} SoundRunIff(s: State, steps: seq<Step>)
    requires Placed(s) && Sound(s) && ValidRun(s, steps)
    ensures AlwaysSound(s, steps) <==> NeverOvertakes(s, steps)
    decreases |steps|
  {
    if steps != [] {
      PlacedStep(s, steps[0]);
      SoundStepIff(s, steps[0]);
      if !Overtakes(s, steps[0]) { SoundRunIff(Next(s, steps[0]), steps[1..]); }
    }
  }

  /** Nobody connected, nothing under way. */
  predicate Init(s: State) {
    s.users == map[] && s.rooms == {} && s.removals == [] && s.checkedJoins == multiset{}
  }

  /**
   * Who receives a room's messages, with joins split at their await: on a run, everyone in a room is a
   * member or about to be kicked in every state, and stays so whichever join finishes next, if and only
   * if no kick of the run comes between the check and the join of the user it removes.
   */
  lemma OnlyMembersReceiveIff(s: State, steps: seq<Step>)
    requires Init(s) && ValidRun(s, steps)
    ensures AlwaysSound(s, steps) <==> NeverOvertakes(s, steps)
  {
    SoundMeansJustified(s);
    SoundRunIff(s, steps);
  }

  /** With every join in one step, it holds on all runs. */
  lemma {:induction false} OneStepJoinsAreSound(s: State, steps: seq<Step>)
    requires Placed(s) && Sound(s) && s.checkedJoins == multiset{} && ValidRun(s, steps)
    requires forall i :: 0 <= i < |steps| ==> !steps[i].CheckJoin?
    ensures AlwaysSound(s, steps)
    decreases |steps|
  {
    if steps != [] {
      PlacedStep(s, steps[0]);
      SoundStepIff(s, steps[0]);
      OneStepJoinsAreSound(Next(s, steps[0]), steps[1..]);
    }
  }
}
