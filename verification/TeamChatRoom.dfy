/** The component's mutable state (frontend/components/chat/TeamChatRoom.tsx), driven by its handlers. */
module TeamChatRoom {
  import opened Options
  import opened ChatWindow
  import opened OptimisticSend

  class Room {
    var messages: seq<ChatMessage>
    var olderCursor: Option<MessageId>
    var hasMoreOlder: bool
    var newerCursor: Option<MessageId>
    var hasMoreNewer: bool
    var isAnchored: bool
    const currentUserId: string

    /** The paging state as one value. */
    function State(): Window
      reads this
    {
      Window(messages, olderCursor, hasMoreOlder, newerCursor, hasMoreNewer, isAnchored)
    }

    constructor (me: string)
      ensures State() == Window([], None, false, None, false, false) && currentUserId == me
    {
      messages, olderCursor, hasMoreOlder := [], None, false;
      newerCursor, hasMoreNewer, isAnchored := None, false, false;
      currentUserId := me;
    }

    /** First page on mount: around the first unread message when there is one, else the newest page. */
    method Open(log: seq<ChatMessage>, unreadCount: nat, firstUnread: Option<MessageId>) returns (ok: bool)
      modifies this
      ensures unreadCount == 0 || firstUnread.None? ==> ok && State() == ShowLatest(GetMessages(log, None, 30))
      ensures unreadCount > 0 && firstUnread.Some? ==>
                var c := GetMessagesAround(log, firstUnread.value, 10, 30);
                ok == c.Some? && State() == (if ok then ShowContext(c.value) else old(State()))
    {
      if unreadCount > 0 && firstUnread.Some? {
        var win := GetMessagesAround(log, firstUnread.value, 10, 30);
        if win.None? { return false; }
        ShowWindow(win.value);
      } else {
        ShowTail(GetMessages(log, None, 30));
      }
      return true;
    }

    method ShowWindow(win: Context)
      modifies this
      ensures State() == ShowContext(win)
    {
      messages := win.messages;
      olderCursor := if win.messages == [] then None else Some(win.messages[0].id);
      hasMoreOlder := win.hasMoreOlder;
      newerCursor := if win.messages == [] then None else Some(win.messages[|win.messages| - 1].id);
      hasMoreNewer := win.hasMoreNewer;
      isAnchored := win.hasMoreNewer;
    }

    method ShowTail(history: Page)
      modifies this
      ensures State() == ShowLatest(history)
    {
      messages := history.messages;
      olderCursor := history.nextCursor;
      hasMoreOlder := history.hasMore;
      newerCursor := None;
      hasMoreNewer := false;
      isAnchored := false;
    }

    /** loadOlder: a failed fetch changes nothing. */
    method LoadOlderPage(log: seq<ChatMessage>, take: nat, fails: bool)
      requires take > 0
      modifies this
      ensures State() == if fails then old(State()) else LoadOlder(log, old(State()), take)
    {
      if !hasMoreOlder || olderCursor.None? || fails { return; }
      var res := GetMessages(log, olderCursor, take);
      messages := Fresh(messages, res.messages) + messages;
      olderCursor := res.nextCursor;
      hasMoreOlder := res.hasMore;
    }

    method LoadNewerPage(log: seq<ChatMessage>, limit: nat, fails: bool)
      requires limit > 0
      modifies this
      ensures State() == if fails then old(State()) else LoadNewer(log, old(State()), limit)
    {
      if !hasMoreNewer || newerCursor.None? || fails { return; }
      var res := GetNewerMessages(log, newerCursor.value, limit);
      messages := messages + Fresh(messages, res.messages);
      newerCursor := res.nextCursor;
      hasMoreNewer := res.hasMore;
      if !res.hasMore { isAnchored := false; }
    }

    method JumpToNewest(log: seq<ChatMessage>, fails: bool)
      modifies this
      ensures State() == if fails then old(State()) else ScrollToNewest(log, old(State()), 30)
      ensures !old(isAnchored) || fails ==> State() == old(State())
      ensures old(isAnchored) && !fails ==>
                && messages == log[Max(0, |log| - 30)..] && hasMoreOlder == (|log| > 30)
                && !isAnchored && !hasMoreNewer && newerCursor == None
    {
      if isAnchored && !fails {
        OlderPageIsSlice(log, |log|, 30);
        ShowTail(GetMessages(log, None, 30));
      }
    }

    method SelectSearchResult(log: seq<ChatMessage>, id: MessageId, fails: bool)
      modifies this
      ensures State() == if fails then old(State()) else Jump(log, old(State()), id, 25, 25)
    {
      if exists i :: 0 <= i < |messages| && messages[i].id == id { return; }
      var res := GetMessagesAround(log, id, 25, 25);
      if res.Some? && !fails { ShowWindow(res.value); }
    }

    method ReceiveMessage(m: ChatMessage)
      modifies this
      ensures State() == OnNewMessage(old(State()), m, currentUserId)
      ensures State() == old(State()).(messages := messages)
      ensures messages ==
                if || m.senderId == currentUserId || isAnchored
                   || exists i :: 0 <= i < |old(messages)| && old(messages)[i].id == m.id
                then old(messages) else old(messages) + [m]
    {
      if m.senderId == currentUserId { return; }
      if !isAnchored {
        if !(exists i :: 0 <= i < |messages| && messages[i].id == m.id) {
          messages := messages + [m];
        }
      }
    }

    /** handleSend up to its await: the message is shown at once. */
    method StartSend(tempId: string, content: string)
      modifies this`messages
      ensures messages == Applied(old(messages), Started(tempId, currentUserId, content))
      ensures messages == old(messages) + [ChatMessage(tempId, Some(tempId), currentUserId, Some(content), true, false)]
    {
      messages := messages + [ChatMessage(tempId, Some(tempId), currentUserId, Some(content), true, false)];
    }

    /** handleSend after its await; `saved` is None when the request failed. */
    method FinishSend(tempId: string, saved: Option<ChatMessage>)
      modifies this`messages
      ensures messages == Applied(old(messages), if saved.Some? then Saved(tempId, saved.value) else Failed(tempId))
      ensures |messages| == |old(messages)|
      ensures forall i :: 0 <= i < |messages| ==>
                var was := old(messages)[i];
                messages[i] == if was.tempId != Some(tempId) then was
                               else if saved.Some? then saved.value
                               else ChatMessage(was.id, was.tempId, was.senderId, was.content, false, true)
    {
      messages := seq(|messages|, i requires 0 <= i < |messages| reads this =>
        if messages[i].tempId != Some(tempId) then messages[i]
        else if saved.Some? then saved.value
        else messages[i].(pending := false, failed := true));
      assert |messages| == |old(messages)|;
    }
  }
}
