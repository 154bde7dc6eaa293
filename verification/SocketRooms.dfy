/**
 * Reference-counted room holding of the socket client across reconnects (frontend/lib/socket.ts) and
 * the sync cursors it sends (frontend/stores/inboxStore.ts).
 */
module SocketRooms {
  import opened Options

  type Key = string

  // ── Room keys ─────────────────────────────────────────────────────────────

  datatype Namespace = ContactRoom | ChatRoom

  function Prefix(ns: Namespace): string {
    if ns == ContactRoom then "contact" else "chat"
  }

  function KeyOf(ns: Namespace, id: string): Key {
    Prefix(ns) + ":" + id
  }

  /** The text before the first ':', all of it when there is none. */
  function UpToColon(s: string): string {
    if s == "" || s[0] == ':' then "" else [s[0]] + UpToColon(s[1..])
  }

  function AfterColon(s: string): Option<string> {
    if s == "" then None else if s[0] == ':' then Some(s[1..]) else AfterColon(s[1..])
  }

  /** The room a reconnect joins for a key: `const [ns, id] = room.split(':')`. */
  function RejoinTarget(key: Key): Option<Key> {
    var ns, rest := UpToColon(key), AfterColon(key);
    if rest.None? then None
    else if ns == "contact" then Some(KeyOf(ContactRoom, UpToColon(rest.value)))
    else if ns == "chat" then Some(KeyOf(ChatRoom, UpToColon(rest.value)))
    else None
  }

  lemma {:induction false} SplitAtColon(head: string, tail: string)
    requires ':' !in head
    ensures UpToColon(head + ":" + tail) == head && AfterColon(head + ":" + tail) == Some(tail)
  {
    var s := head + ":" + tail;
    if head == "" {
      assert s == ":" + tail;
    } else {
      assert s[0] == head[0] && head[0] in head;
      assert s[1..] == head[1..] + ":" + tail;
      SplitAtColon(head[1..], tail);
    }
  }

  lemma {:induction false} UpToColonIsWhole(s: string)
    ensures UpToColon(s) == s <==> ':' !in s
  {
    if s != "" {
      UpToColonIsWhole(s[1..]);
      if s[0] != ':' { assert UpToColon(s)[1..] == UpToColon(s[1..]); }
    }
  }

  /** A reconnect joins the room that is held if and only if the id contains no ':'. */
  lemma RejoinsTheHeldRoom(ns: Namespace, id: string)
    ensures RejoinTarget(KeyOf(ns, id)) == Some(KeyOf(ns, id)) <==> ':' !in id
  {
    SplitAtColon(Prefix(ns), id);
    UpToColonIsWhole(id);
    var short := UpToColon(id);
    assert KeyOf(ns, short)[|Prefix(ns)| + 1..] == short && KeyOf(ns, id)[|Prefix(ns)| + 1..] == id;
  }

  /** No two rooms share a key, whatever their ids. */
  lemma KeysAreDistinct(ns: Namespace, id: string, other: Namespace, otherId: string)
    ensures KeyOf(ns, id) == KeyOf(other, otherId) <==> ns == other && id == otherId
  {
    SplitAtColon(Prefix(ns), id);
    SplitAtColon(Prefix(other), otherId);
    assert Prefix(ContactRoom)[1] != Prefix(ChatRoom)[1];
  }

  /** An id with ':' is cut at the first one: the reconnect joins another room. */
  lemma RejoinsUpToColon(ns: Namespace, head: string, tail: string)
    requires ':' !in head
    ensures RejoinTarget(KeyOf(ns, head + ":" + tail)) == Some(KeyOf(ns, head))
  {
    SplitAtColon(Prefix(ns), head + ":" + tail);
    SplitAtColon(head, tail);
  }

  // ── Reference counts: a JavaScript Map keeps insertion order ──────────────

  datatype Refs = Refs(keys: seq<Key>, counts: map<Key, nat>)

  predicate Distinct(keys: seq<Key>) {
    forall i, j :: 0 <= i < j < |keys| ==> keys[i] != keys[j]
  }

  /** One entry per held key, none of them 0. */
  predicate WellFormed(refs: Refs) {
    && Distinct(refs.keys)
    && (forall i :: 0 <= i < |refs.keys| ==> refs.keys[i] in refs.counts)
    && (forall k :: k in refs.counts ==> k in refs.keys && refs.counts[k] > 0)
  }

  function Count(refs: Refs, key: Key): nat {
    if key in refs.counts then refs.counts[key] else 0
  }

  function Without(keys: seq<Key>, key: Key): seq<Key> {
    if keys == [] then [] else (if keys[0] == key then [] else [keys[0]]) + Without(keys[1..], key)
  }

  function Retained(refs: Refs, key: Key): Refs {
    Refs(if key in refs.counts then refs.keys else refs.keys + [key], refs.counts[key := Count(refs, key) + 1])
  }

  function Released(refs: Refs, key: Key): Refs {
    if Count(refs, key) <= 1 then Refs(Without(refs.keys, key), refs.counts - {key})
    else refs.(counts := refs.counts[key := Count(refs, key) - 1])
  }

  lemma {:induction false} WithoutKeepsOthers(keys: seq<Key>, key: Key)
    ensures forall k :: k in Without(keys, key) <==> k in keys && k != key
  {
    if keys != [] {
      WithoutKeepsOthers(keys[1..], key);
      assert forall k :: k in keys <==> k == keys[0] || k in keys[1..];
    }
  }

  lemma {:induction false} WithoutAbsent(keys: seq<Key>, key: Key)
    requires key !in keys
    ensures Without(keys, key) == keys
  {
    if keys != [] { WithoutAbsent(keys[1..], key); }
  }

  lemma {:induction false} WithoutAt(keys: seq<Key>, i: nat)
    requires Distinct(keys) && i < |keys|
    ensures Without(keys, keys[i]) == keys[..i] + keys[i + 1..]
  {
    var rest := keys[1..];
    if i == 0 {
      assert forall j :: 0 <= j < |rest| ==> rest[j] == keys[j + 1];
      WithoutAbsent(rest, keys[0]);
    } else {
      WithoutAt(rest, i - 1);
      assert keys[..i] == [keys[0]] + rest[..i - 1] && keys[i + 1..] == rest[i..];
    }
  }

  /** What giving up a key does to the list of keys: cut out, the others in their order. */
  predicate CutOut(before: seq<Key>, after: seq<Key>, key: Key) {
    if key !in before then after == before
    else exists i :: 0 <= i < |before| && before[i] == key && after == before[..i] + before[i + 1..]
  }

  /** Deleting an entry keeps the order of the others. */
  lemma WithoutCutsOut(keys: seq<Key>, key: Key)
    requires Distinct(keys)
    ensures CutOut(keys, Without(keys, key), key) && Distinct(Without(keys, key))
  {
    if key in keys {
      var i: nat :| i < |keys| && keys[i] == key;
      WithoutAt(keys, i);
    } else {
      WithoutAbsent(keys, key);
    }
  }

  lemma KeysMatch(refs: Refs)
    requires WellFormed(refs)
    ensures forall k :: k in refs.keys <==> k in refs.counts
  {
  }

  lemma RetainedFacts(refs: Refs, key: Key)
    requires WellFormed(refs)
    ensures WellFormed(Retained(refs, key)) && Retained(refs, key).counts.Keys == refs.counts.Keys + {key}
    ensures forall k :: Count(Retained(refs, key), k) == Count(refs, k) + (if k == key then 1 else 0)
  {
    hide Without;
    KeysMatch(refs);
    var after := Retained(refs, key);
    assert forall k :: k in after.keys <==> k in refs.keys || k == key;
    assert forall i :: 0 <= i < |after.keys| ==> after.keys[i] in after.keys;
  }

  lemma ReleasedFacts(refs: Refs, key: Key)
    requires WellFormed(refs)
    ensures WellFormed(Released(refs, key))
    ensures Released(refs, key).counts.Keys ==
              if Count(refs, key) > 1 then refs.counts.Keys else refs.counts.Keys - {key}
    ensures forall k :: Count(Released(refs, key), k) ==
              if k != key then Count(refs, k) else if Count(refs, k) > 0 then Count(refs, k) - 1 else 0
  {
    hide Without;
    KeysMatch(refs);
    WithoutKeepsOthers(refs.keys, key);
    WithoutCutsOut(refs.keys, key);
    hide CutOut, Distinct;
    var after := Released(refs, key);
    assert forall i :: 0 <= i < |after.keys| ==> after.keys[i] in after.keys;
  }

  // ── Cursors ───────────────────────────────────────────────────────────────

  type Cursors = map<string, int>

  /** updateLastSeq: `Math.max(previous || 0, seq)`. */
  function WithSeq(cursors: Cursors, contact: string, messageSeq: int): Cursors {
    var last := if contact in cursors then cursors[contact] else 0;
    cursors[contact := if messageSeq > last then messageSeq else last]
  }

  function Recorded(records: seq<(string, int)>): Cursors {
    if records == [] then map[]
    else WithSeq(Recorded(records[..|records| - 1]), records[|records| - 1].0, records[|records| - 1].1)
  }

  /** A contact's cursor is the largest sequence number recorded for it, never below 0. */
  lemma {:induction false} CursorIsMaximum(records: seq<(string, int)>, contact: string)
    ensures contact in Recorded(records) <==> exists i :: 0 <= i < |records| && records[i].0 == contact
    ensures contact in Recorded(records) ==>
              var cursor := Recorded(records)[contact];
              && cursor >= 0
              && (forall i :: 0 <= i < |records| && records[i].0 == contact ==> records[i].1 <= cursor)
              && (cursor == 0 || exists i :: 0 <= i < |records| && records[i] == (contact, cursor))
  {
    if records != [] {
      var front := records[..|records| - 1];
      CursorIsMaximum(front, contact);
      assert forall i :: 0 <= i < |front| ==> records[i] == front[i];
      assert records[|records| - 1] == (records[|records| - 1].0, records[|records| - 1].1);
    }
  }

  // ── What is sent to the server ────────────────────────────────────────────

  datatype Emit = Join(room: Key) | Leave(room: Key) | SyncSince(cursors: Cursors)

  function Rejoins(keys: seq<Key>): seq<Emit> {
    if keys == [] then []
    else
      var earlier, target := Rejoins(keys[..|keys| - 1]), RejoinTarget(keys[|keys| - 1]);
      if target.Some? then earlier + [Join(target.value)] else earlier
  }

  /** Everything a reconnect sends: all joins first, then at most one sync:since. */
  function ReconnectTrace(refs: Refs, cursors: Cursors): seq<Emit> {
    Rejoins(refs.keys) + (if |cursors| > 0 then [SyncSince(cursors)] else [])
  }

  class SocketClient {
    var refs: Refs
    var sent: seq<Emit>

    constructor ()
      ensures refs == Refs([], map[]) && sent == []
    {
      refs, sent := Refs([], map[]), [];
    }

    /** True for the first holder. */
    method RetainRoom(key: Key) returns (first: bool)
      requires WellFormed(refs)
      modifies this`refs
      ensures refs == Retained(old(refs), key) && first == (Count(old(refs), key) == 0)
      ensures WellFormed(refs)
      ensures first == (key !in old(refs).keys)
      ensures refs.keys == if first then old(refs).keys + [key] else old(refs).keys
      ensures forall k :: Count(refs, k) == Count(old(refs), k) + (if k == key then 1 else 0)
    {
      RetainedFacts(refs, key);
      var count := (if key in refs.counts then refs.counts[key] else 0) + 1;
      refs := Refs(if key in refs.counts then refs.keys else refs.keys + [key], refs.counts[key := count]);
      return count == 1;
    }

    /** True for the last holder. */
    method ReleaseRoom(key: Key) returns (last: bool)
      requires WellFormed(refs)
      modifies this`refs
      ensures refs == Released(old(refs), key) && last == (Count(old(refs), key) <= 1)
      ensures WellFormed(refs)
      ensures if last then CutOut(old(refs).keys, refs.keys, key) else refs.keys == old(refs).keys
      ensures forall k :: Count(refs, k) ==
                if k == key && Count(old(refs), k) > 0 then Count(old(refs), k) - 1 else Count(old(refs), k)
    {
      hide Without, Distinct, CutOut;
      var count: int := (if key in refs.counts then refs.counts[key] else 1) - 1;
      ReleasedFacts(refs, key);
      WithoutCutsOut(refs.keys, key);
      if count <= 0 {
        refs := Refs(Without(refs.keys, key), refs.counts - {key});
        return true;
      }
      refs := refs.(counts := refs.counts[key := count]);
      return false;
    }

    /** handleSocketReconnect: the rooms are rejoined before the cursors are sent. */
    method HandleSocketReconnect(cursors: Cursors)
      modifies this`sent
      ensures sent == old(sent) + ReconnectTrace(refs, cursors)
      ensures sent == old(sent) + Rejoins(refs.keys) + (if cursors == map[] then [] else [SyncSince(cursors)])
    {
      for i := 0 to |refs.keys|
        invariant sent == old(sent) + Rejoins(refs.keys[..i])
      {
        assert refs.keys[..i + 1][..i] == refs.keys[..i];
        var target := RejoinTarget(refs.keys[i]);
        if target.Some? {
          sent := sent + [Join(target.value)];
        }
      }
      assert refs.keys[..|refs.keys|] == refs.keys;
      if |cursors| > 0 {
        sent := sent + [SyncSince(cursors)];
      }
    }
  }

  // ── The client and the server together ────────────────────────────────────

  datatype Phase = BeforeFirstConnect | Connected | Offline

  datatype State = State(
    refs: Refs,
    /** One entry per live holder of a room. */
    holders: multiset<Key>,
    phase: Phase,
    /** Calls waiting for the first connection. */
    waiting: seq<Emit>,
    /** Emits made while offline, which the socket keeps for the next connection. */
    buffer: seq<Emit>,
    /** Emits on their way to the server. */
    wire: seq<Emit>,
    /** The rooms this connection would be in if the server finished each join before the next emit. */
    inOrder: set<Key>,
    /** Rooms joined from the offline buffer that nobody holds any more. */
    leaked: set<Key>,
    cursors: Cursors)

  datatype Step =
    | Acquire(key: Key)
    | Release(key: Key)
    | Connect
    | Disconnect
    | ServerTakes
    | Record(contact: string, messageSeq: int)

  /** Keys as joinContactRoom and joinChatRoom build them, from ids without ':'. */
  ghost predicate PlainKey(key: Key) {
    exists ns: Namespace, id: string :: ':' !in id && key == KeyOf(ns, id)
  }

  ghost predicate Enabled(s: State, step: Step) {
    match step
    case Acquire(k) => PlainKey(k)
    case Release(k) => s.holders[k] > 0
    case Connect => s.phase != Connected
    case Disconnect => s.phase == Connected
    case ServerTakes => s.phase == Connected && s.wire != []
    case Record(_, _) => true
  }

  /** One emit handled from start to end: a contact room admits anybody, a chat room its members. */
  function Take(rooms: set<Key>, e: Emit, admits: Key -> bool): set<Key> {
    match e
    case Join(k) => if admits(k) then rooms + {k} else rooms
    case Leave(k) => rooms - {k}
    case SyncSince(_) => rooms
  }

  function Joined(buffer: seq<Emit>): set<Key> {
    set i | 0 <= i < |buffer| && buffer[i].Join? :: buffer[i].room
  }

  ghost function Next(s: State, step: Step, admits: Key -> bool): State
    requires Enabled(s, step)
  {
    match step
    case Acquire(k) =>
      var t := s.(refs := Retained(s.refs, k), holders := s.holders + multiset{k});
      if Count(s.refs, k) > 0 then t
      else match s.phase {
        case BeforeFirstConnect => t.(waiting := s.waiting + [Join(k)])
        case Connected => t.(wire := s.wire + [Join(k)])
        case Offline => t.(buffer := s.buffer + [Join(k)])
      }
    case Release(k) =>
      var t := s.(refs := Released(s.refs, k), holders := s.holders - multiset{k});
      if Count(s.refs, k) > 1 then t
      else match s.phase {
        case BeforeFirstConnect => t.(waiting := s.waiting + [Leave(k)])
        case Connected => t.(wire := s.wire + [Leave(k)], leaked := s.leaked - {k})
        case Offline => t
      }
    case Connect =>
      if s.phase == BeforeFirstConnect then s.(phase := Connected, waiting := [], wire := s.waiting)
      else s.(phase := Connected, buffer := [], wire := s.buffer + ReconnectTrace(s.refs, s.cursors),
              leaked := Joined(s.buffer) - s.refs.counts.Keys)
    case Disconnect => s.(phase := Offline, wire := [], inOrder := {}, leaked := {})
    case ServerTakes => s.(wire := s.wire[1..], inOrder := Take(s.inOrder, s.wire[0], admits))
    case Record(c, q) => s.(cursors := WithSeq(s.cursors, c, q))
  }

  /** The same for a whole wire. */
  function Drained(rooms: set<Key>, wire: seq<Emit>, admits: Key -> bool): set<Key> {
    if wire == [] then rooms else Take(Drained(rooms, wire[..|wire| - 1], admits), wire[|wire| - 1], admits)
  }

  function Admitted(rooms: set<Key>, admits: Key -> bool): set<Key> {
    set k | k in rooms && admits(k)
  }

  /** The reference counts are the holder counts, and every key was built from an id without ':'. */
  ghost predicate RefsCount(refs: Refs, holders: multiset<Key>) {
    WellFormed(refs) && (forall k :: Count(refs, k) == holders[k]) && (forall k :: k in refs.counts ==> PlainKey(k))
  }

  ghost predicate Invariant(s: State, admits: Key -> bool) {
    && RefsCount(s.refs, s.holders)
    && match s.phase
       case BeforeFirstConnect =>
         s.wire == [] && s.buffer == [] && s.inOrder == {} && s.leaked == {}
         && Drained({}, s.waiting, admits) == Admitted(s.refs.counts.Keys, admits)
       case Connected =>
         s.waiting == [] && s.buffer == []
         && Drained(s.inOrder, s.wire, admits) == Admitted(s.refs.counts.Keys + s.leaked, admits)
       case Offline =>
         s.waiting == [] && s.wire == [] && s.inOrder == {} && s.leaked == {}
         && (forall i :: 0 <= i < |s.buffer| ==> s.buffer[i].Join?)
  }

  ghost predicate Init(s: State) {
    s == State(Refs([], map[]), multiset{}, BeforeFirstConnect, [], [], [], {}, {}, map[])
  }

  lemma {:induction false} DrainedFirst(rooms: set<Key>, wire: seq<Emit>, admits: Key -> bool)
    requires wire != []
    ensures Drained(Take(rooms, wire[0], admits), wire[1..], admits) == Drained(rooms, wire, admits)
  {
    if |wire| > 1 {
      DrainedFirst(rooms, wire[..|wire| - 1], admits);
      assert wire[1..][..|wire| - 2] == wire[..|wire| - 1][1..];
    } else {
      assert wire[..0] == [] && wire[1..] == [];
    }
  }

  lemma {:induction false} DrainedAppend(rooms: set<Key>, a: seq<Emit>, b: seq<Emit>, admits: Key -> bool)
    ensures Drained(rooms, a + b, admits) == Drained(Drained(rooms, a, admits), b, admits)
  {
    if b == [] {
      assert a + b == a;
    } else {
      DrainedAppend(rooms, a, b[..|b| - 1], admits);
      assert (a + b)[..|a + b| - 1] == a + b[..|b| - 1];
    }
  }

  lemma {:induction false} DrainedJoins(rooms: set<Key>, buffer: seq<Emit>, admits: Key -> bool)
    requires forall i :: 0 <= i < |buffer| ==> buffer[i].Join?
    ensures Drained(rooms, buffer, admits) == rooms + Admitted(Joined(buffer), admits)
  {
    if buffer != [] {
      var front := buffer[..|buffer| - 1];
      DrainedJoins(rooms, front, admits);
      assert Joined(buffer) == Joined(front) + {buffer[|buffer| - 1].room} by {
        forall k ensures k in Joined(buffer) <==> k in Joined(front) + {buffer[|buffer| - 1].room} {
          if k in Joined(front) {
            var i :| 0 <= i < |front| && front[i].Join? && front[i].room == k;
            assert buffer[i].room == k;
          }
        }
      }
    }
  }

  lemma {:induction false} RejoinsAreTheKeys(keys: seq<Key>)
    requires forall i :: 0 <= i < |keys| ==> PlainKey(keys[i])
    ensures |Rejoins(keys)| == |keys| && forall i :: 0 <= i < |keys| ==> Rejoins(keys)[i] == Join(keys[i])
  {
    if keys != [] {
      RejoinsAreTheKeys(keys[..|keys| - 1]);
      var ns: Namespace, id: string :| ':' !in id && keys[|keys| - 1] == KeyOf(ns, id);
      RejoinsTheHeldRoom(ns, id);
    }
  }

  lemma JoinedRejoins(keys: seq<Key>)
    requires forall i :: 0 <= i < |keys| ==> PlainKey(keys[i])
    ensures forall k :: k in Joined(Rejoins(keys)) <==> k in keys
    ensures forall i :: 0 <= i < |Rejoins(keys)| ==> Rejoins(keys)[i].Join?
  {
    RejoinsAreTheKeys(keys);
    forall k ensures k in Joined(Rejoins(keys)) <==> k in keys {
      if k in keys {
        var i :| 0 <= i < |keys| && keys[i] == k;
        assert Rejoins(keys)[i] == Join(k);
      }
    }
  }

  /** A reconnect joins what the buffer and the reference counts name, and nothing else. */
  lemma ReconnectJoins(s: State, admits: Key -> bool)
    requires Invariant(s, admits) && s.phase == Offline
    ensures Drained({}, s.buffer + ReconnectTrace(s.refs, s.cursors), admits)
         == Admitted(Joined(s.buffer) + s.refs.counts.Keys, admits)
  {
    JoinedRejoins(s.refs.keys);
    assert Joined(Rejoins(s.refs.keys)) == s.refs.counts.Keys;
    BufferThenTrace(s.buffer, s.refs, s.cursors, admits);
  }

  lemma BufferThenTrace(buffer: seq<Emit>, refs: Refs, cursors: Cursors, admits: Key -> bool)
    requires forall i :: 0 <= i < |buffer| ==> buffer[i].Join?
    requires forall i :: 0 <= i < |Rejoins(refs.keys)| ==> Rejoins(refs.keys)[i].Join?
    ensures Drained({}, buffer + ReconnectTrace(refs, cursors), admits)
         == Admitted(Joined(buffer) + Joined(Rejoins(refs.keys)), admits)
  {
    DrainedJoins({}, buffer, admits);
    DrainedAppend({}, buffer, ReconnectTrace(refs, cursors), admits);
    TraceDrains(Admitted(Joined(buffer), admits), refs, cursors, admits);
  }

  lemma TraceDrains(rooms: set<Key>, refs: Refs, cursors: Cursors, admits: Key -> bool)
    requires forall i :: 0 <= i < |Rejoins(refs.keys)| ==> Rejoins(refs.keys)[i].Join?
    ensures Drained(rooms, ReconnectTrace(refs, cursors), admits) ==
              rooms + Admitted(Joined(Rejoins(refs.keys)), admits)
  {
    var joins := Rejoins(refs.keys);
    DrainedJoins(rooms, joins, admits);
    if |cursors| > 0 {
      DrainedAppend(rooms, joins, [SyncSince(cursors)], admits);
      assert [SyncSince(cursors)][..0] == [];
    } else {
      assert joins + [] == joins;
    }
  }

  lemma RetainCounts(refs: Refs, holders: multiset<Key>, key: Key)
    requires RefsCount(refs, holders) && PlainKey(key)
    ensures RefsCount(Retained(refs, key), holders + multiset{key})
  {
    RetainedFacts(refs, key);
  }

  lemma ReleaseCounts(refs: Refs, holders: multiset<Key>, key: Key)
    requires RefsCount(refs, holders) && holders[key] > 0
    ensures RefsCount(Released(refs, key), holders - multiset{key})
  {
    ReleasedFacts(refs, key);
  }

  lemma RefsStep(s: State, step: Step, admits: Key -> bool)
    requires Enabled(s, step) && RefsCount(s.refs, s.holders)
    ensures RefsCount(Next(s, step, admits).refs, Next(s, step, admits).holders)
  {
    hide RefsCount, Retained, Released, ReconnectTrace, Take;
    if step.Acquire? {
      RetainCounts(s.refs, s.holders, step.key);
    } else if step.Release? {
      ReleaseCounts(s.refs, s.holders, step.key);
    }
  }

  /** What the invariant says of the emits in each phase. */
  ghost predicate EmitsSettle(s: State, admits: Key -> bool) {
    match s.phase
    case BeforeFirstConnect => Drained({}, s.waiting, admits) == Admitted(s.refs.counts.Keys, admits)
    case Connected => Drained(s.inOrder, s.wire, admits) == Admitted(s.refs.counts.Keys + s.leaked, admits)
    case Offline => forall i :: 0 <= i < |s.buffer| ==> s.buffer[i].Join?
  }

  lemma ConnectStep(s: State, admits: Key -> bool)
    requires Invariant(s, admits) && s.phase != Connected
    ensures EmitsSettle(Next(s, Connect, admits), admits)
  {
    hide Drained, ReconnectTrace;
    var t := Next(s, Connect, admits);
    if s.phase == Offline {
      ReconnectJoins(s, admits);
      assert t.refs.counts.Keys + t.leaked == Joined(s.buffer) + s.refs.counts.Keys;
    } else {
      assert s.refs.counts.Keys + {} == s.refs.counts.Keys;
    }
  }

  lemma InvariantStep(s: State, step: Step, admits: Key -> bool)
    requires Invariant(s, admits) && Enabled(s, step)
    ensures Invariant(Next(s, step, admits), admits)
  {
    RefsStep(s, step, admits);
    if step.Connect? {
      ConnectStep(s, admits);
    } else if step.ServerTakes? {
      DrainedFirst(s.inOrder, s.wire, admits);
    } else if step.Acquire? {
      AcquireStep(s, step.key, admits);
    } else if step.Release? {
      ReleaseStep(s, step.key, admits);
    }
    hide RefsCount, Drained, Retained, Released, ReconnectTrace, Take;
    assert EmitsSettle(Next(s, step, admits), admits);
  }

  lemma AcquireStep(s: State, k: Key, admits: Key -> bool)
    requires Invariant(s, admits) && PlainKey(k)
    ensures EmitsSettle(Next(s, Acquire(k), admits), admits)
  {
    var t := Next(s, Acquire(k), admits);
    RetainedFacts(s.refs, k);
    var held := s.refs.counts.Keys;
    if Count(s.refs, k) > 0 {
      assert held + {k} == held;
    } else {
      match s.phase
      case BeforeFirstConnect =>
        DrainedOne({}, s.waiting, Join(k), admits);
        AdmittedJoin(held, k, admits);
      case Connected =>
        DrainedOne(s.inOrder, s.wire, Join(k), admits);
        AdmittedJoin(held + s.leaked, k, admits);
        assert held + {k} + s.leaked == held + s.leaked + {k};
      case Offline =>
    }
  }

  lemma AdmittedJoin(rooms: set<Key>, k: Key, admits: Key -> bool)
    ensures Take(Admitted(rooms, admits), Join(k), admits) == Admitted(rooms + {k}, admits)
  {
  }

  lemma ReleaseStep(s: State, k: Key, admits: Key -> bool)
    requires Invariant(s, admits) && s.holders[k] > 0
    ensures EmitsSettle(Next(s, Release(k), admits), admits)
  {
    var t := Next(s, Release(k), admits);
    assert Count(s.refs, k) > 0;
    ReleasedFacts(s.refs, k);
    var held := s.refs.counts.Keys;
    if Count(s.refs, k) == 1 {
      assert t.refs.counts.Keys == held - {k};
      match s.phase
      case BeforeFirstConnect =>
        DrainedOne({}, s.waiting, Leave(k), admits);
        AdmittedLeave(held, k, admits);
      case Connected =>
        DrainedOne(s.inOrder, s.wire, Leave(k), admits);
        AdmittedLeave(held + s.leaked, k, admits);
        assert (held - {k}) + (s.leaked - {k}) == held + s.leaked - {k};
      case Offline =>
    }
  }

  lemma AdmittedLeave(rooms: set<Key>, k: Key, admits: Key -> bool)
    ensures Take(Admitted(rooms, admits), Leave(k), admits) == Admitted(rooms - {k}, admits)
  {
  }

  lemma DrainedOne(rooms: set<Key>, wire: seq<Emit>, e: Emit, admits: Key -> bool)
    ensures Drained(rooms, wire + [e], admits) == Take(Drained(rooms, wire, admits), e, admits)
  {
    assert (wire + [e])[..|wire|] == wire;
  }

  ghost predicate ValidRun(s: State, steps: seq<Step>, admits: Key -> bool)
    decreases |steps|
  {
    steps == [] || (Enabled(s, steps[0]) && ValidRun(Next(s, steps[0], admits), steps[1..], admits))
  }

  ghost function Final(s: State, steps: seq<Step>, admits: Key -> bool): State
    requires ValidRun(s, steps, admits)
    decreases |steps|
  {
    if steps == [] then s else Final(Next(s, steps[0], admits), steps[1..], admits)
  }

  /** No room is acquired for the first time while the connection is down. */
  ghost predicate NoOfflineAcquire(s: State, steps: seq<Step>, admits: Key -> bool)
    requires ValidRun(s, steps, admits)
    decreases |steps|
  {
    steps == [] ||
    ((s.phase == Offline && steps[0].Acquire? ==> Count(s.refs, steps[0].key) > 0)
     && NoOfflineAcquire(Next(s, steps[0], admits), steps[1..], admits))
  }

  lemma {:induction false} InvariantRun(s: State, steps: seq<Step>, admits: Key -> bool)
    requires Invariant(s, admits) && ValidRun(s, steps, admits)
    ensures Invariant(Final(s, steps, admits), admits)
    decreases |steps|
  {
    if steps != [] {
      InvariantStep(s, steps[0], admits);
      InvariantRun(Next(s, steps[0], admits), steps[1..], admits);
    }
  }

  lemma {:induction false} NothingLeaks(s: State, steps: seq<Step>, admits: Key -> bool)
    requires ValidRun(s, steps, admits) && NoOfflineAcquire(s, steps, admits)
    requires s.leaked == {} && s.buffer == []
    ensures Final(s, steps, admits).leaked == {} && Final(s, steps, admits).buffer == []
    decreases |steps|
  {
    if steps != [] {
      NothingLeaks(Next(s, steps[0], admits), steps[1..], admits);
    }
  }

  /**
   * On every run the reference count is the number of live holders; and were each join finished before
   * the next emit is handled, a drained connection would be in every held room the server admits, and
   * otherwise only in rooms acquired and released again while offline.
   */
  lemma HeldRoomsInOrder(s: State, steps: seq<Step>, admits: Key -> bool)
    requires Init(s) && ValidRun(s, steps, admits)
    ensures var t := Final(s, steps, admits);
            && (forall k :: Count(t.refs, k) == t.holders[k])
            && (t.phase == Connected && t.wire == [] ==>
                  && t.inOrder == Admitted(t.refs.counts.Keys + t.leaked, admits)
                  && (forall k :: t.holders[k] > 0 && admits(k) ==> k in t.inOrder)
                  && (NoOfflineAcquire(s, steps, admits) ==> t.inOrder == Admitted(t.refs.counts.Keys, admits)))
  {
    InvariantRun(s, steps, admits);
    var t := Final(s, steps, admits);
    if NoOfflineAcquire(s, steps, admits) {
      NothingLeaks(s, steps, admits);
      assert t.refs.counts.Keys + {} == t.refs.counts.Keys;
    }
    forall k | t.holders[k] > 0 && admits(k) ensures k in t.refs.counts {
      assert Count(t.refs, k) > 0;
    }
  }

  lemma HeldMeansCounted(s: State, admits: Key -> bool)
    requires Invariant(s, admits)
    ensures forall k :: k in s.refs.counts <==> s.holders[k] > 0
  {
    forall k ensures k in s.refs.counts <==> s.holders[k] > 0 {
      assert Count(s.refs, k) == s.holders[k];
    }
  }

  /** The emits of a reconnect name the held rooms and no other exactly when every buffered join is of a held room. */
  lemma ReconnectInOrderIff(s: State, admits: Key -> bool)
    requires Invariant(s, admits) && s.phase == Offline
    ensures var t := Next(s, Connect, admits);
            Drained(t.inOrder, t.wire, admits) == Admitted(s.refs.counts.Keys, admits)
            <==> forall k :: k in Joined(s.buffer) && admits(k) ==> s.holders[k] > 0
  {
    ReconnectJoins(s, admits);
    HeldMeansCounted(s, admits);
    ExtraRoomsIff(s.refs.counts.Keys, Joined(s.buffer), admits);
    assert Joined(s.buffer) + s.refs.counts.Keys == s.refs.counts.Keys + Joined(s.buffer);
  }

  lemma ExtraRoomsIff(held: set<Key>, extra: set<Key>, admits: Key -> bool)
    ensures Admitted(held + extra, admits) == Admitted(held, admits)
            <==> forall k :: k in extra && admits(k) ==> k in held
  {
    if Admitted(held + extra, admits) == Admitted(held, admits) {
      forall k | k in extra && admits(k) ensures k in held {
        assert k in Admitted(held + extra, admits);
      }
    }
  }

  /** Acquiring and giving up a room while offline leaves its join in the buffer. */
  lemma OfflineBuffersJoin(s: State, key: Key, admits: Key -> bool)
    requires Invariant(s, admits) && s.phase == Offline && PlainKey(key) && s.holders[key] == 0
    ensures var acquired := Next(s, Acquire(key), admits);
            && Enabled(acquired, Release(key))
            && var t := Next(acquired, Release(key), admits);
               t.phase == Offline && t.buffer == s.buffer + [Join(key)] && t.holders[key] == 0
  {
    assert Count(s.refs, key) == 0;
  }

  /** Opening and closing a room while connected sends its join and its leave. */
  lemma OpenThenClose(s: State, key: Key, admits: Key -> bool)
    requires Invariant(s, admits) && s.phase == Connected && PlainKey(key) && s.holders[key] == 0
    ensures var first := Next(s, Acquire(key), admits);
            && Enabled(first, Release(key))
            && var t := Next(first, Release(key), admits);
               && t.phase == Connected && t.wire == s.wire + [Join(key)] + [Leave(key)]
               && t.holders[key] == 0 && t.leaked == s.leaked - {key}
  {
    assert Count(s.refs, key) == 0;
    assert Count(Next(s, Acquire(key), admits).refs, key) == 1;
  }

  /** The server takes the first emit; the client's own state is not touched. */
  lemma TakesFirst(s: State, admits: Key -> bool)
    requires Enabled(s, ServerTakes)
    ensures Next(s, ServerTakes, admits) == s.(wire := s.wire[1..], inOrder := Take(s.inOrder, s.wire[0], admits))
  {
  }

  /** Only the server's handling of an emit and a lost connection change the rooms. */
  lemma RoomsUntouched(s: State, step: Step, admits: Key -> bool)
    requires Enabled(s, step) && !step.ServerTakes? && !step.Disconnect?
    ensures var t := Next(s, step, admits); t.inOrder == s.inOrder && (s.phase == Connected ==> t.phase == Connected)
  {
  }

  // ── The cursors of a run ──────────────────────────────────────────────────

  function RecordOf(step: Step): seq<(string, int)> {
    if step.Record? then [(step.contact, step.messageSeq)] else []
  }

  /** The sequence numbers a run records, oldest first. */
  function RecordsOf(steps: seq<Step>): seq<(string, int)> {
    if steps == [] then [] else RecordOf(steps[0]) + RecordsOf(steps[1..])
  }

  lemma CursorsStep(s: State, step: Step, before: seq<(string, int)>, admits: Key -> bool)
    requires Enabled(s, step) && s.cursors == Recorded(before)
    ensures Next(s, step, admits).cursors == Recorded(before + RecordOf(step))
  {
    if step.Record? {
      RecordedAppend(before, step.contact, step.messageSeq);
    } else {
      assert before + [] == before;
    }
  }

  lemma RecordedAppend(records: seq<(string, int)>, contact: string, messageSeq: int)
    ensures Recorded(records + [(contact, messageSeq)]) == WithSeq(Recorded(records), contact, messageSeq)
  {
    assert (records + [(contact, messageSeq)])[..|records|] == records;
  }

  lemma {:induction false} CursorsOfRun(s: State, steps: seq<Step>, before: seq<(string, int)>, admits: Key -> bool)
    requires ValidRun(s, steps, admits) && s.cursors == Recorded(before)
    ensures Final(s, steps, admits).cursors == Recorded(before + RecordsOf(steps))
    decreases |steps|
  {
    if steps == [] {
      assert before + [] == before;
    } else {
      CursorsStep(s, steps[0], before, admits);
      CursorsOfRun(Next(s, steps[0], admits), steps[1..], before + RecordOf(steps[0]), admits);
      Regrouped(before, RecordOf(steps[0]), RecordsOf(steps[1..]));
    }
  }

  lemma Regrouped(a: seq<(string, int)>, b: seq<(string, int)>, c: seq<(string, int)>)
    ensures a + b + c == a + (b + c)
  {
  }

  /**
   * A reconnect after any run ends by sending, for every contact the run recorded and no other, the
   * largest sequence number recorded for it; it sends no cursors when the run recorded none.
   */
  lemma SyncSendsMaxima(s: State, steps: seq<Step>, admits: Key -> bool)
    requires Init(s) && ValidRun(s, steps, admits) && Final(s, steps, admits).phase == Offline
    ensures var t, records := Final(s, steps, admits), RecordsOf(steps);
            && t.cursors == Recorded(records)
            && ReconnectTrace(t.refs, t.cursors) ==
                 Rejoins(t.refs.keys) + (if records == [] then [] else [SyncSince(Recorded(records))])
  {
    CursorsOfRun(s, steps, [], admits);
    assert [] + RecordsOf(steps) == RecordsOf(steps);
    var records := RecordsOf(steps);
    if records != [] {
      CursorIsMaximum(records, records[0].0);
      assert records[0].0 in Recorded(records);
      assert |Recorded(records)| > 0;
    }
  }
}
