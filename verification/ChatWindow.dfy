/**
 * The paged message window of a team chat over the conversation's log
 * (frontend/components/chat/TeamChatRoom.tsx, backend/src/modules/chat/chat.service.ts).
 */
module ChatWindow {
  import opened Options

  type MessageId = string

  datatype ChatMessage = ChatMessage(
    id: MessageId,
    tempId: Option<string>,
    senderId: string,
    content: Option<string>,
    pending: bool,
    failed: bool)

  /** A page of history, oldest first. */
  datatype Page = Page(messages: seq<ChatMessage>, nextCursor: Option<MessageId>, hasMore: bool)

  /** A window around one message, oldest first. */
  datatype Context = Context(messages: seq<ChatMessage>, hasMoreOlder: bool, hasMoreNewer: bool)

  datatype Window = Window(
    messages: seq<ChatMessage>,
    olderCursor: Option<MessageId>,
    hasMoreOlder: bool,
    newerCursor: Option<MessageId>,
    hasMoreNewer: bool,
    isAnchored: bool)

  // ── The server's pages ────────────────────────────────────────────────────

  /** First position holding the id, the length of the log when none does. */
  function IndexOf(log: seq<ChatMessage>, id: MessageId): (i: nat)
    ensures i <= |log|
    ensures i < |log| ==> log[i].id == id
    ensures forall j :: 0 <= j < i ==> log[j].id != id
  {
    IndexFrom(log, id, 0)
  }

  function IndexFrom(log: seq<ChatMessage>, id: MessageId, from: nat): (i: nat)
    requires from <= |log|
    ensures from <= i <= |log|
    ensures i < |log| ==> log[i].id == id
    ensures forall j :: from <= j < i ==> log[j].id != id
    decreases |log| - from
  {
    if from == |log| || log[from].id == id then from else IndexFrom(log, id, from + 1)
  }

  function Max(a: int, b: int): int { if a > b then a else b }

  function Min(a: int, b: int): int { if a < b then a else b }

  /** getMessages: one row more than asked for tells whether an older page exists. */
  function GetMessages(log: seq<ChatMessage>, cursor: Option<MessageId>, take: nat): Page
    requires take > 0
  {
    var end := if cursor.None? then |log|
               else if IndexOf(log, cursor.value) == |log| then 0
               else IndexOf(log, cursor.value);
    var rows := log[Max(0, end - take - 1)..end];
    var hasMore := |rows| > take;
    var page := if hasMore then rows[1..] else rows;
    Page(page, if hasMore then Some(page[0].id) else None, hasMore)
  }

  /** getNewerMessages: the page after a cursor. */
  function GetNewerMessages(log: seq<ChatMessage>, cursor: MessageId, limit: nat): Page
    requires limit > 0
  {
    var start := Min(IndexOf(log, cursor) + 1, |log|);
    var rows := log[start..Min(start + limit + 1, |log|)];
    var hasMore := |rows| > limit;
    var page := if hasMore then rows[..limit] else rows;
    Page(page, Some(if page != [] then page[|page| - 1].id else cursor), hasMore)
  }

  /** getMessagesAround: a side counts as having more when it came back full. */
  function GetMessagesAround(log: seq<ChatMessage>, id: MessageId, before: nat, after: nat): Option<Context>
    requires before > 0 && after > 0
  {
    var i := IndexOf(log, id);
    if i == |log| then None
    else
      var older := log[Max(0, i - before)..i];
      var newer := log[i + 1..Min(i + 1 + after, |log|)];
      Some(Context(older + [log[i]] + newer, |older| == before, |newer| == after))
  }

  // ── The client's window ───────────────────────────────────────────────────

  function ShowLatest(page: Page): Window {
    Window(page.messages, page.nextCursor, page.hasMore, None, false, false)
  }

  function ShowContext(c: Context): Window {
    Window(c.messages,
           if c.messages == [] then None else Some(c.messages[0].id), c.hasMoreOlder,
           if c.messages == [] then None else Some(c.messages[|c.messages| - 1].id), c.hasMoreNewer, c.hasMoreNewer)
  }

  predicate Holds(messages: seq<ChatMessage>, id: MessageId) {
    exists i :: 0 <= i < |messages| && messages[i].id == id
  }

  /** The messages of a page that are not held yet. */
  function Fresh(held: seq<ChatMessage>, page: seq<ChatMessage>): seq<ChatMessage> {
    if page == [] then []
    else
      var kept := Fresh(held, page[..|page| - 1]);
      if Holds(held, page[|page| - 1].id) then kept else kept + [page[|page| - 1]]
  }

  function AfterOlder(w: Window, page: Page): Window {
    w.(messages := Fresh(w.messages, page.messages) + w.messages,
       olderCursor := page.nextCursor, hasMoreOlder := page.hasMore)
  }

  function AfterNewer(w: Window, page: Page): Window {
    w.(messages := w.messages + Fresh(w.messages, page.messages), newerCursor := page.nextCursor,
       hasMoreNewer := page.hasMore, isAnchored := if page.hasMore then w.isAnchored else false)
  }

  function LoadOlder(log: seq<ChatMessage>, w: Window, take: nat): Window
    requires take > 0
  {
    if !w.hasMoreOlder || w.olderCursor.None? then w else AfterOlder(w, GetMessages(log, w.olderCursor, take))
  }

  function LoadNewer(log: seq<ChatMessage>, w: Window, limit: nat): Window
    requires limit > 0
  {
    if !w.hasMoreNewer || w.newerCursor.None? then w
    else AfterNewer(w, GetNewerMessages(log, w.newerCursor.value, limit))
  }

  function ScrollToNewest(log: seq<ChatMessage>, w: Window, take: nat): Window
    requires take > 0
  {
    if w.isAnchored then ShowLatest(GetMessages(log, None, take)) else w
  }

  /** handleSelectSearchResult: scroll to a loaded message, otherwise load the window around it. */
  function Jump(log: seq<ChatMessage>, w: Window, id: MessageId, before: nat, after: nat): Window
    requires before > 0 && after > 0
  {
    if Holds(w.messages, id) then w
    else
      var context := GetMessagesAround(log, id, before, after);
      if context.None? then w else ShowContext(context.value)
  }

  /** onNewMessage: own messages and messages behind an anchored window are skipped, known ones dropped. */
  function OnNewMessage(w: Window, m: ChatMessage, me: string): Window {
    if m.senderId == me || w.isAnchored || Holds(w.messages, m.id) then w else w.(messages := w.messages + [m])
  }

  // ── The window refines the log ────────────────────────────────────────────

  ghost predicate DistinctIds(log: seq<ChatMessage>) {
    forall i, j :: 0 <= i < j < |log| ==> log[i].id != log[j].id
  }

  /** The window shows log[lo..hi), knows where to continue, and never claims an end it has not reached. */
  ghost predicate Shows(log: seq<ChatMessage>, w: Window, lo: int, hi: int) {
    && 0 <= lo <= hi <= |log|
    && w.messages == log[lo..hi]
    && (lo > 0 ==> w.hasMoreOlder)
    && (hi < |log| ==> w.hasMoreNewer)
    && (w.hasMoreOlder ==> lo < hi && w.olderCursor == Some(log[lo].id))
    && (w.hasMoreNewer ==> lo < hi && w.newerCursor == Some(log[hi - 1].id))
    && w.isAnchored == w.hasMoreNewer
  }

  /** The flags tell exactly whether there is more in each direction. */
  ghost predicate ExactFlags(log: seq<ChatMessage>, w: Window, lo: int, hi: int) {
    w.hasMoreOlder == (lo > 0) && w.hasMoreNewer == (hi < |log|)
  }

  /** The same, as the lookups use it: every message is found where it stands. */
  ghost predicate Findable(log: seq<ChatMessage>) {
    forall i {:trigger IndexOf(log, log[i].id)} :: 0 <= i < |log| ==> IndexOf(log, log[i].id) == i
  }

  lemma DistinctIsFindable(log: seq<ChatMessage>)
    requires DistinctIds(log)
    ensures Findable(log)
  {
    forall i | 0 <= i < |log| ensures IndexOf(log, log[i].id) == i {
      var j := IndexOf(log, log[i].id);
      assert log[j].id == log[i].id;
    }
  }

  lemma {:induction false} FreshOfAppend(held: seq<ChatMessage>, p: seq<ChatMessage>, q: seq<ChatMessage>)
    ensures Fresh(held, p + q) == Fresh(held, p) + Fresh(held, q)
  {
    if q == [] {
      assert p + q == p;
    } else {
      var n := |p + q| - 1;
      assert (p + q)[..n] == p + q[..|q| - 1] && (p + q)[n] == q[|q| - 1];
      FreshOfAppend(held, p, q[..|q| - 1]);
    }
  }

  lemma {:induction false} FreshAll(held: seq<ChatMessage>, page: seq<ChatMessage>)
    requires forall i :: 0 <= i < |page| ==> !Holds(held, page[i].id)
    ensures Fresh(held, page) == page
  {
    if page != [] { FreshAll(held, page[..|page| - 1]); }
  }

  lemma {:induction false} FreshNone(held: seq<ChatMessage>, page: seq<ChatMessage>)
    requires forall i :: 0 <= i < |page| ==> Holds(held, page[i].id)
    ensures Fresh(held, page) == []
  {
    if page != [] { FreshNone(held, page[..|page| - 1]); }
  }

  lemma HoldsInSlice(log: seq<ChatMessage>, lo: int, hi: int, i: int)
    requires Findable(log) && 0 <= lo <= hi <= |log| && 0 <= i < |log|
    ensures Holds(log[lo..hi], log[i].id) <==> lo <= i < hi
  {
    if lo <= i < hi { assert log[lo..hi][i - lo].id == log[i].id; }
    if Holds(log[lo..hi], log[i].id) {
      var k :| 0 <= k < hi - lo && log[lo..hi][k].id == log[i].id;
      assert IndexOf(log, log[lo + k].id) == lo + k;
    }
  }

  /** Of a stretch of the log, the window log[lo..hi) holds all or nothing when they overlap fully or not at all. */
  lemma FreshOutside(log: seq<ChatMessage>, lo: int, hi: int, a: int, b: int)
    requires Findable(log) && 0 <= lo <= hi <= |log| && 0 <= a <= b <= |log|
    requires b <= lo || hi <= a || a == b
    ensures Fresh(log[lo..hi], log[a..b]) == log[a..b]
  {
    forall i | 0 <= i < b - a ensures !Holds(log[lo..hi], log[a..b][i].id) { HoldsInSlice(log, lo, hi, a + i); }
    FreshAll(log[lo..hi], log[a..b]);
  }

  lemma FreshInside(log: seq<ChatMessage>, lo: int, hi: int, a: int, b: int)
    requires Findable(log) && 0 <= lo <= hi <= |log| && 0 <= a <= b <= |log|
    requires (lo <= a && b <= hi) || a == b
    ensures Fresh(log[lo..hi], log[a..b]) == []
  {
    forall i | 0 <= i < b - a ensures Holds(log[lo..hi], log[a..b][i].id) { HoldsInSlice(log, lo, hi, a + i); }
    FreshNone(log[lo..hi], log[a..b]);
  }

  lemma Joined(log: seq<ChatMessage>, x: int, y: int, z: int)
    requires 0 <= x <= y <= z <= |log|
    ensures log[x..y] + log[y..z] == log[x..z]
  {
  }

  /** Of the page log[a..b), the window log[lo..hi) lacks exactly what lies before lo and what lies from hi on. */
  lemma FreshOfSlice(log: seq<ChatMessage>, lo: int, hi: int, a: int, l: int, r: int, b: int)
    requires Findable(log) && 0 <= lo <= hi <= |log| && 0 <= a <= l <= r <= b <= |log|
    requires (l <= lo || a == l) && ((lo <= l && r <= hi) || l == r) && (hi <= r || r == b)
    ensures Fresh(log[lo..hi], log[a..b]) == log[a..l] + log[r..b]
  {
    FreshOutside(log, lo, hi, a, l);
    FreshInside(log, lo, hi, l, r);
    FreshOutside(log, lo, hi, r, b);
    FreshOfThree(log[lo..hi], log[a..l], log[l..r], log[r..b]);
    Joined(log, a, l, r);
    Joined(log, a, r, b);
    assert log[a..l] + [] == log[a..l];
  }

  lemma FreshOfThree(held: seq<ChatMessage>, p: seq<ChatMessage>, q: seq<ChatMessage>, r: seq<ChatMessage>)
    ensures Fresh(held, p + q + r) == Fresh(held, p) + Fresh(held, q) + Fresh(held, r)
  {
    FreshOfAppend(held, p + q, r);
    FreshOfAppend(held, p, q);
  }

  lemma OlderPageIsSlice(log: seq<ChatMessage>, end: int, take: nat)
    requires 0 <= end <= |log| && take > 0 && (end < |log| ==> IndexOf(log, log[end].id) == end)
    ensures var cursor := if end < |log| then Some(log[end].id) else None;
            var page := GetMessages(log, cursor, take);
            var start := Max(0, end - take);
            && page.messages == log[start..end] && page.hasMore == (start > 0)
            && page.nextCursor == (if start > 0 then Some(log[start].id) else None)
  {
    if end > take {
      var rows := log[end - take - 1..end];
      assert |rows| == take + 1;
      forall k | 0 <= k < take ensures rows[1..][k] == log[end - take..end][k] {}
      assert rows[1..] == log[end - take..end];
      assert rows[1..][0] == log[end - take];
    } else {
      assert |log[0..end]| <= take;
    }
  }

  lemma NewerPageIsSlice(log: seq<ChatMessage>, start: int, limit: nat)
    requires 0 < start <= |log| && limit > 0 && IndexOf(log, log[start - 1].id) == start - 1
    ensures var page := GetNewerMessages(log, log[start - 1].id, limit);
            var end := Min(start + limit, |log|);
            && page.messages == log[start..end] && page.hasMore == (end < |log|)
            && page.nextCursor == Some(log[end - 1].id)
  {
    if start + limit < |log| {
      var rows := log[start..start + limit + 1];
      assert |rows| == limit + 1;
      forall k | 0 <= k < limit ensures rows[..limit][k] == log[start..start + limit][k] {}
      assert rows[..limit] == log[start..start + limit];
    } else {
      assert |log[start..|log|]| <= limit;
    }
  }

  /** Opening at the newest page. */
  lemma ShowsLatest(log: seq<ChatMessage>, take: nat)
    requires Findable(log) && take > 0
    ensures var lo := Max(0, |log| - take);
            var w := ShowLatest(GetMessages(log, None, take));
            Shows(log, w, lo, |log|) && ExactFlags(log, w, lo, |log|)
  {
    OlderPageIsSlice(log, |log|, take);
  }

  /**
   * Opening around a message. The window is a slice that never claims an end it has not reached, and
   * its flags are exact if and only if neither side holds exactly as many messages as were asked for.
   */
  lemma ShowsAround(log: seq<ChatMessage>, i: int, before: nat, after: nat)
    requires Findable(log) && 0 <= i < |log| && before > 0 && after > 0
    ensures var c := GetMessagesAround(log, log[i].id, before, after);
            && c.Some?
            && var w, lo, hi := ShowContext(c.value), Max(0, i - before), Min(i + 1 + after, |log|);
               && Shows(log, w, lo, hi)
               && (ExactFlags(log, w, lo, hi) <==> i != before && |log| - 1 - i != after)
  {
    ContextIsSlice(log, i, before, after);
    hide Findable, GetMessagesAround, Shows, IndexOf;
    var c := GetMessagesAround(log, log[i].id, before, after).value;
    ContextShows(log, c, Max(0, i - before), Min(i + 1 + after, |log|));
  }

  lemma ContextIsSlice(log: seq<ChatMessage>, i: int, before: nat, after: nat)
    requires 0 <= i < |log| && IndexOf(log, log[i].id) == i && before > 0 && after > 0
    ensures var lo, hi := Max(0, i - before), Min(i + 1 + after, |log|);
            GetMessagesAround(log, log[i].id, before, after)
            == Some(Context(log[lo..hi], i - lo == before, hi - i - 1 == after))
  {
    var lo, hi := Max(0, i - before), Min(i + 1 + after, |log|);
    assert log[lo..i] + [log[i]] + log[i + 1..hi] == log[lo..hi];
    hide IndexOf;
  }

  lemma ContextShows(log: seq<ChatMessage>, c: Context, lo: int, hi: int)
    requires 0 <= lo < hi <= |log| && c.messages == log[lo..hi]
    requires (lo > 0 ==> c.hasMoreOlder) && (hi < |log| ==> c.hasMoreNewer)
    ensures Shows(log, ShowContext(c), lo, hi)
  {
  }

  lemma ShowsAfterOlder(log: seq<ChatMessage>, w: Window, lo: int, hi: int, take: nat)
    requires Findable(log) && Shows(log, w, lo, hi) && take > 0
    ensures var lo' := if w.hasMoreOlder then Max(0, lo - take) else lo;
            var w' := LoadOlder(log, w, take);
            && Shows(log, w', lo', hi)
            && w'.hasMoreOlder == (lo' > 0) && w'.hasMoreNewer == w.hasMoreNewer
  {
    if w.hasMoreOlder {
      var start := Max(0, lo - take);
      assert IndexOf(log, log[lo].id) == lo;
      OlderPageIsSlice(log, lo, take);
      FreshOutside(log, lo, hi, start, lo);
      Joined(log, start, lo, hi);
    }
  }

  lemma ShowsAfterNewer(log: seq<ChatMessage>, w: Window, lo: int, hi: int, limit: nat)
    requires Findable(log) && Shows(log, w, lo, hi) && limit > 0
    ensures var hi' := if w.hasMoreNewer then Min(hi + limit, |log|) else hi;
            var w' := LoadNewer(log, w, limit);
            && Shows(log, w', lo, hi')
            && w'.hasMoreNewer == (hi' < |log|) && w'.hasMoreOlder == w.hasMoreOlder
  {
    if w.hasMoreNewer {
      var end := Min(hi + limit, |log|);
      assert IndexOf(log, log[hi - 1].id) == hi - 1;
      NewerPageIsSlice(log, hi, limit);
      FreshOutside(log, lo, hi, hi, end);
      Joined(log, lo, hi, end);
    }
  }

  /** Someone else's message, stored and delivered: a window at the tail follows, an anchored one stays. */
  lemma ShowsAfterPost(log: seq<ChatMessage>, w: Window, lo: int, hi: int, m: ChatMessage, me: string)
    requires DistinctIds(log + [m]) && Shows(log, w, lo, hi) && m.senderId != me
    ensures var w' := OnNewMessage(w, m, me);
            && Shows(log + [m], w', lo, if w.isAnchored then hi else hi + 1)
            && (ExactFlags(log, w, lo, hi) ==> ExactFlags(log + [m], w', lo, if w.isAnchored then hi else hi + 1))
  {
    forall i | 0 <= i < |w.messages| ensures w.messages[i].id != m.id {
      assert (log + [m])[lo + i].id != (log + [m])[|log|].id;
    }
    if !w.isAnchored {
      assert (log + [m])[lo..|log| + 1] == log[lo..hi] + [m];
    } else {
      assert (log + [m])[lo..hi] == log[lo..hi];
    }
  }

  /** The jump to the newest page: an anchored window is replaced by the tail of the log, any other stays. */
  lemma ShowsAfterNewest(log: seq<ChatMessage>, w: Window, lo: int, hi: int, take: nat)
    requires Findable(log) && Shows(log, w, lo, hi) && take > 0
    ensures var w' := ScrollToNewest(log, w, take);
            && !w'.isAnchored && !w'.hasMoreNewer
            && Shows(log, w', if w.isAnchored then Max(0, |log| - take) else lo, |log|)
            && (!w.isAnchored ==> w' == w)
  {
    ShowsLatest(log, take);
  }

  /** A search result: a loaded message changes nothing, another one in the log gets the window around it. */
  lemma ShowsAfterJump(log: seq<ChatMessage>, w: Window, i: int, before: nat, after: nat)
    requires Findable(log) && 0 <= i < |log| && before > 0 && after > 0
    ensures var w' := Jump(log, w, log[i].id, before, after);
            && Holds(w'.messages, log[i].id)
            && (if Holds(w.messages, log[i].id) then w' == w
                else Shows(log, w', Max(0, i - before), Min(i + 1 + after, |log|)))
  {
    ShowsAround(log, i, before, after);
    HoldsInSlice(log, Max(0, i - before), Min(i + 1 + after, |log|), i);
  }

  /** Ids the log does not hold: both pages are empty, and a jump does nothing. */
  lemma UnknownIds(log: seq<ChatMessage>, w: Window, id: MessageId, take: nat, before: nat, after: nat)
    requires (forall i :: 0 <= i < |log| ==> log[i].id != id) && take > 0 && before > 0 && after > 0
    ensures GetMessages(log, Some(id), take) == Page([], None, false)
    ensures GetNewerMessages(log, id, take) == Page([], Some(id), false)
    ensures Jump(log, w, id, before, after) == w
  {
    assert IndexOf(log, id) == |log|;
  }

  /** Which incoming messages are shown: those of others, not held yet, while the window is at the tail. */
  lemma ShownWhenNew(w: Window, m: ChatMessage, me: string)
    ensures var w' := OnNewMessage(w, m, me);
            && w' == w.(messages := w'.messages)
            && w'.messages ==
                 if m.senderId == me || w.isAnchored || exists i :: 0 <= i < |w.messages| && w.messages[i].id == m.id
                 then w.messages else w.messages + [m]
  {
  }

  // ── Whole runs ────────────────────────────────────────────────────────────

  datatype Event =
    | Post(message: ChatMessage)
    | Older(take: nat)
    | Newer(take: nat)
    | Newest(take: nat)
    | JumpTo(id: MessageId, before: nat, after: nat)

  datatype RoomState = RoomState(log: seq<ChatMessage>, window: Window)

  ghost predicate Possible(r: RoomState, e: Event, me: string) {
    match e
    case Post(m) => m.senderId != me && DistinctIds(r.log + [m])
    case Older(n) => n > 0
    case Newer(n) => n > 0
    case Newest(n) => n > 0
    case JumpTo(_, b, a) => b > 0 && a > 0
  }

  function Step(r: RoomState, e: Event, me: string): RoomState
    requires Possible(r, e, me)
  {
    match e
    case Post(m) => RoomState(r.log + [m], OnNewMessage(r.window, m, me))
    case Older(n) => r.(window := LoadOlder(r.log, r.window, n))
    case Newer(n) => r.(window := LoadNewer(r.log, r.window, n))
    case Newest(n) => r.(window := ScrollToNewest(r.log, r.window, n))
    case JumpTo(id, b, a) => r.(window := Jump(r.log, r.window, id, b, a))
  }

  ghost predicate PossibleRun(r: RoomState, es: seq<Event>, me: string)
    decreases |es|
  {
    es == [] || (Possible(r, es[0], me) && PossibleRun(Step(r, es[0], me), es[1..], me))
  }

  ghost function Run(r: RoomState, es: seq<Event>, me: string): RoomState
    requires PossibleRun(r, es, me)
    decreases |es|
  {
    if es == [] then r else Run(Step(r, es[0], me), es[1..], me)
  }

  /** The messages are a contiguous stretch of the log. */
  ghost predicate IsSlice(log: seq<ChatMessage>, messages: seq<ChatMessage>) {
    exists x, y :: 0 <= x <= y <= |log| && messages == log[x..y]
  }

  /** The messages are everything from some position of the log on. */
  ghost predicate IsTail(log: seq<ChatMessage>, messages: seq<ChatMessage>) {
    exists x :: 0 <= x <= |log| && messages == log[x..]
  }

  ghost predicate Refines(r: RoomState) {
    DistinctIds(r.log) && exists lo, hi :: Shows(r.log, r.window, lo, hi)
  }

  /** Where a window that shows log[lo..hi) begins and ends after the event. */
  function Bounds(r: RoomState, e: Event, lo: int, hi: int): (int, int) {
    match e
    case Post(_) => (lo, if r.window.isAnchored then hi else hi + 1)
    case Older(n) => (if r.window.hasMoreOlder then Max(0, lo - n) else lo, hi)
    case Newer(n) => (lo, if r.window.hasMoreNewer then Min(hi + n, |r.log|) else hi)
    case Newest(n) => (if r.window.isAnchored then Max(0, |r.log| - n) else lo, |r.log|)
    case JumpTo(id, b, a) =>
      var i := IndexOf(r.log, id);
      if i == |r.log| || lo <= i < hi then (lo, hi) else (Max(0, i - b), Min(i + 1 + a, |r.log|))
  }

  /** The event moves the ends of the window to these places of the log. */
  ghost predicate Moves(r: RoomState, e: Event, me: string, lo: int, hi: int)
    requires Possible(r, e, me)
  {
    var t := Step(r, e, me);
    && t.log == (if e.Post? then r.log + [e.message] else r.log)
    && Shows(t.log, t.window, Bounds(r, e, lo, hi).0, Bounds(r, e, lo, hi).1)
  }

  lemma PostMoves(r: RoomState, m: ChatMessage, me: string, lo: int, hi: int)
    requires Possible(r, Post(m), me) && Shows(r.log, r.window, lo, hi)
    ensures Moves(r, Post(m), me, lo, hi)
  {
    ShowsAfterPost(r.log, r.window, lo, hi, m, me);
    hide OnNewMessage, DistinctIds, ExactFlags, Shows;
  }

  lemma LoadMoves(r: RoomState, e: Event, me: string, lo: int, hi: int)
    requires (e.Older? || e.Newer? || e.Newest?) && Possible(r, e, me)
    requires Findable(r.log) && Shows(r.log, r.window, lo, hi)
    ensures Moves(r, e, me, lo, hi)
  {
    hide LoadOlder, LoadNewer, ScrollToNewest, Findable, Shows, Max, Min;
    match e
    case Older(n) => ShowsAfterOlder(r.log, r.window, lo, hi, n);
    case Newer(n) => ShowsAfterNewer(r.log, r.window, lo, hi, n);
    case Newest(n) => ShowsAfterNewest(r.log, r.window, lo, hi, n);
  }

  lemma JumpMoves(r: RoomState, id: MessageId, b: nat, a: nat, me: string, lo: int, hi: int)
    requires Findable(r.log) && b > 0 && a > 0 && Shows(r.log, r.window, lo, hi)
    ensures Moves(r, JumpTo(id, b, a), me, lo, hi)
  {
    hide Jump, Findable, Shows, GetMessages, GetNewerMessages, Max, Min;
    var i := IndexOf(r.log, id);
    if i < |r.log| {
      assert r.log[i].id == id;
      JumpsTo(r.log, r.window, i, b, a, lo, hi);
    } else {
      UnknownIds(r.log, r.window, id, 1, b, a);
    }
  }

  /** Every event of a run moves the ends of the window to exactly these places of the log. */
  lemma StepMoves(r: RoomState, e: Event, me: string, lo: int, hi: int)
    requires DistinctIds(r.log) && Possible(r, e, me) && Shows(r.log, r.window, lo, hi)
    ensures var t := Step(r, e, me);
            && t.log == (if e.Post? then r.log + [e.message] else r.log)
            && Shows(t.log, t.window, Bounds(r, e, lo, hi).0, Bounds(r, e, lo, hi).1)
  {
    DistinctIsFindable(r.log);
    hide Step, Bounds, Findable, Shows, DistinctIds;
    match e
    case Post(m) => PostMoves(r, m, me, lo, hi);
    case JumpTo(id, b, a) => JumpMoves(r, id, b, a, me, lo, hi);
    case _ => LoadMoves(r, e, me, lo, hi);
  }

  lemma JumpsTo(log: seq<ChatMessage>, w: Window, i: int, before: nat, after: nat, lo: int, hi: int)
    requires Findable(log) && Shows(log, w, lo, hi) && 0 <= i < |log| && before > 0 && after > 0
    ensures Shows(log, Jump(log, w, log[i].id, before, after), if lo <= i < hi then lo else Max(0, i - before),
                  if lo <= i < hi then hi else Min(i + 1 + after, |log|))
  {
    assert 0 <= lo <= hi <= |log| && w.messages == log[lo..hi];
    hide Jump, Findable, Shows, Holds;
    HoldsInSlice(log, lo, hi, i);
    ShowsAfterJump(log, w, i, before, after);
  }

  lemma RefinesStep(r: RoomState, e: Event, me: string)
    requires Refines(r) && Possible(r, e, me)
    ensures Refines(Step(r, e, me))
  {
    var lo, hi :| Shows(r.log, r.window, lo, hi);
    StepMoves(r, e, me, lo, hi);
  }

  /**
   * On every run of loads, jumps and incoming messages the window is a contiguous slice of the log, in
   * order and without duplicates, and a window that is not anchored reaches the newest message.
   */
  lemma {:induction false} WindowRefinesLog(r: RoomState, es: seq<Event>, me: string)
    requires Refines(r) && PossibleRun(r, es, me)
    ensures Refines(Run(r, es, me))
    ensures var t := Run(r, es, me);
            IsSlice(t.log, t.window.messages) && (!t.window.isAnchored ==> IsTail(t.log, t.window.messages))
    decreases |es|
  {
    if es != [] {
      RefinesStep(r, es[0], me);
      WindowRefinesLog(Step(r, es[0], me), es[1..], me);
    } else {
      var lo, hi :| Shows(r.log, r.window, lo, hi);
      assert !r.window.isAnchored ==> r.window.messages == r.log[lo..];
    }
  }

  /** On any run's window, the down-arrow leads to the newest message and to no anchor. */
  lemma NewestReachesTail(r: RoomState, take: nat, me: string)
    requires Refines(r) && take > 0
    ensures var t := Step(r, Newest(take), me);
            && t.log == r.log && !t.window.isAnchored && IsTail(t.log, t.window.messages)
            && (r.window.isAnchored ==> t.window.messages == r.log[Max(0, |r.log| - take)..])
  {
    var lo, hi :| Shows(r.log, r.window, lo, hi);
    DistinctIsFindable(r.log);
    hide Refines, DistinctIds, Findable;
    TailAfterNewest(r.log, r.window, lo, hi, take);
    hide IsTail, ScrollToNewest;
  }

  lemma TailAfterNewest(log: seq<ChatMessage>, w: Window, lo: int, hi: int, take: nat)
    requires Findable(log) && Shows(log, w, lo, hi) && take > 0
    ensures var w' := ScrollToNewest(log, w, take);
            && !w'.isAnchored && IsTail(log, w'.messages)
            && (w.isAnchored ==> w'.messages == log[Max(0, |log| - take)..])
  {
    ShowsAfterNewest(log, w, lo, hi, take);
    hide Findable, ScrollToNewest;
    var x := if w.isAnchored then Max(0, |log| - take) else lo;
    assert ScrollToNewest(log, w, take).messages == log[x..];
  }

  /** A jump that loads a window asks for neither exactly as many older nor exactly as many newer messages as exist. */
  ghost predicate NoFullSide(r: RoomState, e: Event) {
    e.JumpTo? && !Holds(r.window.messages, e.id) ==>
      var i := IndexOf(r.log, e.id);
      i == |r.log| || (i != e.before && |r.log| - 1 - i != e.after)
  }

  ghost predicate RefinesExactly(r: RoomState) {
    DistinctIds(r.log) && exists lo, hi :: Shows(r.log, r.window, lo, hi) && ExactFlags(r.log, r.window, lo, hi)
  }

  /** A nonempty stretch of the log stands at one place only. */
  lemma SliceIsUnique(log: seq<ChatMessage>, lo: int, hi: int, x: int, y: int)
    requires Findable(log) && 0 <= lo < hi <= |log| && 0 <= x <= y <= |log| && log[lo..hi] == log[x..y]
    ensures x == lo && y == hi
  {
    assert |log[lo..hi]| == |log[x..y]|;
    assert log[lo..hi][0] == log[lo] && log[x..y][0] == log[x];
    assert IndexOf(log, log[lo].id) == lo && IndexOf(log, log[x].id) == x;
  }

  lemma JumpIsExactIff(r: RoomState, id: MessageId, before: nat, after: nat)
    requires RefinesExactly(r) && before > 0 && after > 0
    ensures RefinesExactly(r.(window := Jump(r.log, r.window, id, before, after)))
            <==> NoFullSide(r, JumpTo(id, before, after))
  {
    DistinctIsFindable(r.log);
    var i, w := IndexOf(r.log, id), Jump(r.log, r.window, id, before, after);
    if !Holds(r.window.messages, id) && i < |r.log| {
      var lo, hi := Max(0, i - before), Min(i + 1 + after, |r.log|);
      ShowsAround(r.log, i, before, after);
      if RefinesExactly(r.(window := w)) {
        var x, y :| Shows(r.log, w, x, y) && ExactFlags(r.log, w, x, y);
        SliceIsUnique(r.log, lo, hi, x, y);
      }
    }
  }

  /** Exact flags stay exact on a step if and only if it is no jump that fills a side exactly. */
  lemma FlagsStayExactIff(r: RoomState, e: Event, me: string)
    requires RefinesExactly(r) && Possible(r, e, me)
    ensures RefinesExactly(Step(r, e, me)) <==> NoFullSide(r, e)
  {
    var lo, hi :| Shows(r.log, r.window, lo, hi) && ExactFlags(r.log, r.window, lo, hi);
    DistinctIsFindable(r.log);
    match e
    case Post(m) =>
      ShowsAfterPost(r.log, r.window, lo, hi, m, me);
      assert Shows(r.log + [m], OnNewMessage(r.window, m, me), lo, if r.window.isAnchored then hi else hi + 1);
    case Older(n) =>
      ShowsAfterOlder(r.log, r.window, lo, hi, n);
      assert Shows(r.log, LoadOlder(r.log, r.window, n), if r.window.hasMoreOlder then Max(0, lo - n) else lo, hi);
    case Newer(n) =>
      ShowsAfterNewer(r.log, r.window, lo, hi, n);
      assert Shows(r.log, LoadNewer(r.log, r.window, n), lo,
                   if r.window.hasMoreNewer then Min(hi + n, |r.log|) else hi);
    case Newest(n) =>
      ShowsLatest(r.log, n);
    case JumpTo(id, b, a) =>
      JumpIsExactIff(r, id, b, a);
  }

  // ── Loading everything ────────────────────────────────────────────────────

  function LoadOlderTimes(log: seq<ChatMessage>, w: Window, take: nat, k: nat): Window
    requires take > 0
    decreases k
  {
    if k == 0 then w else LoadOlderTimes(log, LoadOlder(log, w, take), take, k - 1)
  }

  function LoadNewerTimes(log: seq<ChatMessage>, w: Window, limit: nat, k: nat): Window
    requires limit > 0
    decreases k
  {
    if k == 0 then w else LoadNewerTimes(log, LoadNewer(log, w, limit), limit, k - 1)
  }

  lemma {:induction false} OlderReachesStart(log: seq<ChatMessage>, w: Window, lo: int, hi: int, take: nat, k: nat)
    requires Findable(log) && Shows(log, w, lo, hi) && take > 0 && k > lo
    ensures Shows(log, LoadOlderTimes(log, w, take, k), 0, hi) && !LoadOlderTimes(log, w, take, k).hasMoreOlder
    decreases k
  {
    ShowsAfterOlder(log, w, lo, hi, take);
    var lo' := if w.hasMoreOlder then Max(0, lo - take) else lo;
    assert 0 <= lo' && (lo > 0 ==> w.hasMoreOlder);
    hide Shows, LoadOlder, Findable;
    if k - 1 > lo' {
      OlderReachesStart(log, LoadOlder(log, w, take), lo', hi, take, k - 1);
    } else {
      assert lo' == 0 && k == 1;
      assert LoadOlderTimes(log, w, take, k) == LoadOlder(log, w, take);
    }
  }

  lemma {:induction false} NewerReachesTail(log: seq<ChatMessage>, w: Window, lo: int, hi: int, limit: nat, k: nat)
    requires Findable(log) && Shows(log, w, lo, hi) && limit > 0 && k > |log| - hi
    ensures Shows(log, LoadNewerTimes(log, w, limit, k), lo, |log|) && !LoadNewerTimes(log, w, limit, k).hasMoreNewer
    decreases k
  {
    ShowsAfterNewer(log, w, lo, hi, limit);
    var hi' := if w.hasMoreNewer then Min(hi + limit, |log|) else hi;
    assert hi' <= |log| && (hi < |log| ==> w.hasMoreNewer);
    hide Shows, LoadNewer, Findable;
    if k - 1 > |log| - hi' {
      NewerReachesTail(log, LoadNewer(log, w, limit), lo, hi', limit, k - 1);
    } else {
      assert hi' == |log| && k == 1;
      assert LoadNewerTimes(log, w, limit, k) == LoadNewer(log, w, limit);
    }
  }

  /** From any window, enough older loads and then enough newer loads show the whole log, page size regardless. */
  lemma LoadsReachWholeLog(log: seq<ChatMessage>, w: Window, lo: int, hi: int, take: nat, limit: nat, k: nat, n: nat)
    requires Findable(log) && Shows(log, w, lo, hi) && take > 0 && limit > 0
    requires k > lo && n > |log| - hi
    ensures var done := LoadNewerTimes(log, LoadOlderTimes(log, w, take, k), limit, n);
            done.messages == log && !done.hasMoreOlder && !done.hasMoreNewer && !done.isAnchored
  {
    OlderReachesStart(log, w, lo, hi, take, k);
    NewerReachesTail(log, LoadOlderTimes(log, w, take, k), 0, hi, limit, n);
    NewerKeepsOlderFlag(log, LoadOlderTimes(log, w, take, k), limit, n);
  }

  lemma {:induction false} NewerKeepsOlderFlag(log: seq<ChatMessage>, w: Window, limit: nat, k: nat)
    requires limit > 0
    ensures LoadNewerTimes(log, w, limit, k).hasMoreOlder == w.hasMoreOlder
    decreases k
  {
    if k > 0 { NewerKeepsOlderFlag(log, LoadNewer(log, w, limit), limit, k - 1); }
  }

  // ── Where the property stops ──────────────────────────────────────────────

  /**
   * A window opened around a message shows the next incoming message exactly when fewer than `after`
   * messages followed the target. With exactly `after` of them it already stands at the tail, believes
   * there is more, and holds the message back.
   */
  lemma AroundShowsNextMessage(log: seq<ChatMessage>, i: int, before: nat, after: nat, m: ChatMessage, me: string)
    requires DistinctIds(log + [m]) && 0 <= i < |log| && before > 0 && after > 0 && m.senderId != me
    ensures DistinctIds(log) && GetMessagesAround(log, log[i].id, before, after).Some?
    ensures var w := ShowContext(GetMessagesAround(log, log[i].id, before, after).value);
            Holds(OnNewMessage(w, m, me).messages, m.id) <==> |log| - 1 - i < after
  {
    PrefixDistinct(log, [m]);
    DistinctIsFindable(log);
    ShowsAround(log, i, before, after);
    var w := ShowContext(GetMessagesAround(log, log[i].id, before, after).value);
    var lo := Max(0, i - before);
    forall j | 0 <= j < |w.messages| ensures w.messages[j].id != m.id {
      assert (log + [m])[lo + j].id != (log + [m])[|log|].id;
    }
    var shown := OnNewMessage(w, m, me).messages;
    if !w.isAnchored { assert shown[|shown| - 1] == m; }
  }

  /** In a slice of the log, neighbours are neighbours in the log. */
  lemma SliceNeighbours(log: seq<ChatMessage>, messages: seq<ChatMessage>, k: int, i: int, j: int)
    requires Findable(log) && IsSlice(log, messages) && 0 <= k < |messages| - 1
    requires 0 <= i < |log| && 0 <= j < |log| && messages[k] == log[i] && messages[k + 1] == log[j]
    ensures j == i + 1
  {
    var x, y :| 0 <= x <= y <= |log| && messages == log[x..y];
    assert messages[k] == log[x + k] && messages[k + 1] == log[x + k + 1];
    assert IndexOf(log, log[i].id) == i && IndexOf(log, log[j].id) == j;
    assert IndexOf(log, log[x + k].id) == x + k && IndexOf(log, log[x + k + 1].id) == x + k + 1;
  }

  /**
   * An older page that arrives after the window was replaced: the page log[a..b) keeps the window
   * log[lo..hi) contiguous if and only if its end still touches the window.
   */
  lemma LateOlderPage(log: seq<ChatMessage>, w: Window, lo: int, hi: int, page: Page, a: int, b: int)
    requires DistinctIds(log) && 0 <= lo < hi <= |log| && 0 <= a < b <= |log|
    requires w.messages == log[lo..hi] && page.messages == log[a..b]
    ensures IsSlice(log, AfterOlder(w, page).messages) <==> lo <= b <= hi
  {
    DistinctIsFindable(log);
    var l, r := Max(a, Min(b, lo)), Max(a, Min(b, hi));
    FreshOfSlice(log, lo, hi, a, l, r, b);
    OlderTouches(log, AfterOlder(w, page).messages, lo, hi, a, l, r, b);
  }

  lemma OlderTouches(log: seq<ChatMessage>, messages: seq<ChatMessage>, lo: int, hi: int, a: int, l: int, r: int,
                     b: int)
    requires Findable(log) && 0 <= lo < hi <= |log| && 0 <= a < b <= |log|
    requires l == Max(a, Min(b, lo)) && r == Max(a, Min(b, hi)) && messages == log[a..l] + log[r..b] + log[lo..hi]
    ensures IsSlice(log, messages) <==> lo <= b <= hi
  {
    if lo <= b <= hi {
      assert log[r..b] == [];
      if a < lo {
        assert l == lo;
        Joined(log, a, lo, hi);
        assert messages == log[a..hi];
      } else {
        assert messages == log[lo..hi];
      }
    } else if IsSlice(log, messages) {
      var k := l - a + b - r;
      assert messages[k - 1] == log[b - 1] && messages[k] == log[lo];
      SliceNeighbours(log, messages, k - 1, b - 1, lo);
    }
  }

  /** The same for a newer page: its start must still touch the window. */
  lemma LateNewerPage(log: seq<ChatMessage>, w: Window, lo: int, hi: int, page: Page, a: int, b: int)
    requires DistinctIds(log) && 0 <= lo < hi <= |log| && 0 <= a < b <= |log|
    requires w.messages == log[lo..hi] && page.messages == log[a..b]
    ensures IsSlice(log, AfterNewer(w, page).messages) <==> lo <= a <= hi
  {
    DistinctIsFindable(log);
    var l, r := Max(a, Min(b, lo)), Max(a, Min(b, hi));
    FreshOfSlice(log, lo, hi, a, l, r, b);
    assert log[lo..hi] + (log[a..l] + log[r..b]) == log[lo..hi] + log[a..l] + log[r..b];
    NewerTouches(log, AfterNewer(w, page).messages, lo, hi, a, l, r, b);
  }

  lemma NewerTouches(log: seq<ChatMessage>, messages: seq<ChatMessage>, lo: int, hi: int, a: int, l: int, r: int,
                     b: int)
    requires Findable(log) && 0 <= lo < hi <= |log| && 0 <= a < b <= |log|
    requires l == Max(a, Min(b, lo)) && r == Max(a, Min(b, hi)) && messages == log[lo..hi] + log[a..l] + log[r..b]
    ensures IsSlice(log, messages) <==> lo <= a <= hi
  {
    if lo <= a <= hi {
      assert log[a..l] == [];
      if hi < b {
        assert r == hi;
        Joined(log, lo, hi, b);
        assert messages == log[lo..b];
      } else {
        assert messages == log[lo..hi];
      }
    } else if IsSlice(log, messages) {
      assert messages[hi - lo - 1] == log[hi - 1] && messages[hi - lo] == log[a];
      SliceNeighbours(log, messages, hi - lo - 1, hi - 1, a);
    }
  }

  ghost predicate ShowsSomewhere(log: seq<ChatMessage>, w: Window) {
    exists x, y :: Shows(log, w, x, y)
  }

  lemma ShownIsSlice(log: seq<ChatMessage>, w: Window)
    ensures ShowsSomewhere(log, w) ==> IsSlice(log, w.messages)
  {
  }

  /**
   * The whole paging state after a late older page, the one before log[b]: messages, cursors and flags
   * still describe one slice if and only if the page ends in or at the window and reaches down to its start.
   */
  lemma LateOlderShowsIff(log: seq<ChatMessage>, w: Window, lo: int, hi: int, b: int, take: nat)
    requires DistinctIds(log) && Shows(log, w, lo, hi) && lo < hi && 0 < b < |log| && take > 0
    ensures var a, page := Max(0, b - take), GetMessages(log, Some(log[b].id), take);
            ShowsSomewhere(log, AfterOlder(w, page)) <==> a <= lo <= b <= hi
  {
    DistinctIsFindable(log);
    var a, page := Max(0, b - take), GetMessages(log, Some(log[b].id), take);
    var w' := AfterOlder(w, page);
    assert IndexOf(log, log[b].id) == b;
    OlderPageIsSlice(log, b, take);
    LateOlderPage(log, w, lo, hi, page, a, b);
    ShownIsSlice(log, w');
    assert IndexOf(log, log[a].id) == a && IndexOf(log, log[lo].id) == lo;
    if lo <= b <= hi {
      LateOlderMessages(log, w, lo, hi, page, a, b);
      if a <= lo {
        assert Shows(log, w', a, hi);
      } else if x, y :| Shows(log, w', x, y) {
        SliceIsUnique(log, lo, hi, x, y);
      }
    }
  }

  lemma LateOlderMessages(log: seq<ChatMessage>, w: Window, lo: int, hi: int, page: Page, a: int, b: int)
    requires Findable(log) && 0 <= a < b <= |log| && 0 <= lo <= b <= hi <= |log|
    requires w.messages == log[lo..hi] && page.messages == log[a..b]
    ensures AfterOlder(w, page).messages == log[Min(a, lo)..hi]
  {
    if a < lo {
      FreshOfSlice(log, lo, hi, a, lo, b, b);
      NothingBetween(log, b, log[a..lo]);
      Joined(log, a, lo, hi);
    } else {
      FreshInside(log, lo, hi, a, b);
      assert [] + w.messages == w.messages;
    }
  }

  lemma NothingBetween(log: seq<ChatMessage>, x: int, messages: seq<ChatMessage>)
    requires 0 <= x <= |log|
    ensures messages + log[x..x] == messages && log[x..x] + messages == messages
  {
  }

  /**
   * The same for a late newer page, the one after log[a - 1]: it must start in or at the window and reach up
   * to its end.
   */
  lemma LateNewerShowsIff(log: seq<ChatMessage>, w: Window, lo: int, hi: int, a: int, limit: nat)
    requires DistinctIds(log) && Shows(log, w, lo, hi) && lo < hi && 0 < a < |log| && limit > 0
    ensures var b, page := Min(a + limit, |log|), GetNewerMessages(log, log[a - 1].id, limit);
            ShowsSomewhere(log, AfterNewer(w, page)) <==> lo <= a <= hi <= b
  {
    DistinctIsFindable(log);
    var b, page := Min(a + limit, |log|), GetNewerMessages(log, log[a - 1].id, limit);
    var w' := AfterNewer(w, page);
    assert IndexOf(log, log[a - 1].id) == a - 1;
    NewerPageIsSlice(log, a, limit);
    LateNewerPage(log, w, lo, hi, page, a, b);
    ShownIsSlice(log, w');
    assert IndexOf(log, log[b - 1].id) == b - 1 && IndexOf(log, log[hi - 1].id) == hi - 1;
    if lo <= a <= hi {
      LateNewerMessages(log, w, lo, hi, page, a, b);
      if hi <= b {
        assert Shows(log, w', lo, b);
      } else if x, y :| Shows(log, w', x, y) {
        SliceIsUnique(log, lo, hi, x, y);
      }
    }
  }

  lemma LateNewerMessages(log: seq<ChatMessage>, w: Window, lo: int, hi: int, page: Page, a: int, b: int)
    requires Findable(log) && 0 <= a < b <= |log| && 0 <= lo <= a <= hi <= |log|
    requires w.messages == log[lo..hi] && page.messages == log[a..b]
    ensures AfterNewer(w, page).messages == log[lo..Max(hi, b)]
  {
    if hi < b {
      FreshOfSlice(log, lo, hi, a, a, hi, b);
      NothingBetween(log, a, log[hi..b]);
      Joined(log, lo, hi, b);
    } else {
      FreshInside(log, lo, hi, a, b);
      assert w.messages + [] == w.messages;
    }
  }

  lemma TailOfLongerLog(log: seq<ChatMessage>, arrived: seq<ChatMessage>, lo: int)
    requires Findable(log + arrived) && 0 <= lo < |log|
    ensures IsTail(log + arrived, log[lo..]) <==> arrived == []
  {
    var all := log + arrived;
    if arrived == [] {
      assert all == log && log[lo..] == all[lo..];
    }
    if IsTail(all, log[lo..]) {
      var x :| 0 <= x <= |all| && log[lo..] == all[x..];
      assert log[lo..][|log| - lo - 1] == log[|log| - 1] == all[|log| - 1];
      assert all[x..][|all| - x - 1] == all[|all| - 1];
      assert IndexOf(all, all[|log| - 1].id) == |log| - 1 && IndexOf(all, all[|all| - 1].id) == |all| - 1;
    }
  }

  lemma LastPageShown(log: seq<ChatMessage>, w: Window, lo: int, hi: int, limit: nat)
    requires Findable(log) && Shows(log, w, lo, hi) && w.hasMoreNewer
    requires limit > 0 && !GetNewerMessages(log, log[hi - 1].id, limit).hasMore
    ensures var w' := AfterNewer(w, GetNewerMessages(log, log[hi - 1].id, limit));
            !w'.isAnchored && w'.messages == log[lo..] && lo < |log|
  {
    assert IndexOf(log, log[hi - 1].id) == hi - 1;
    hide GetNewerMessages, Fresh;
    NewerPageIsSlice(log, hi, limit);
    assert Min(hi + limit, |log|) == |log|;
    FreshOutside(log, lo, hi, hi, |log|);
    Joined(log, lo, hi, |log|);
    assert log[lo..] == log[lo..|log|];
    assert log[hi..|log|] != [] ==> lo < |log|;
  }

  /**
   * A last newer page computed before some messages arrived: the window stops being anchored, and it
   * reaches the newest message if and only if none arrived while the page was on its way.
   */
  lemma LateLastPage(log: seq<ChatMessage>, arrived: seq<ChatMessage>, w: Window, lo: int, hi: int, limit: nat)
    requires DistinctIds(log + arrived) && Shows(log, w, lo, hi) && w.hasMoreNewer
    requires limit > 0 && !GetNewerMessages(log, log[hi - 1].id, limit).hasMore
    ensures var w' := AfterNewer(w, GetNewerMessages(log, log[hi - 1].id, limit));
            !w'.isAnchored && (IsTail(log + arrived, w'.messages) <==> arrived == [])
  {
    PrefixDistinct(log, arrived);
    DistinctIsFindable(log);
    DistinctIsFindable(log + arrived);
    LastPageShown(log, w, lo, hi, limit);
    TailOfLongerLog(log, arrived, lo);
  }

  lemma PrefixDistinct(log: seq<ChatMessage>, more: seq<ChatMessage>)
    requires DistinctIds(log + more)
    ensures DistinctIds(log)
  {
    forall a, b | 0 <= a < b < |log| ensures log[a].id != log[b].id {
      assert (log + more)[a].id != (log + more)[b].id;
    }
  }
}
