/** The read-mark guard of the open chat (frontend/components/inbox/WhatsAppChatView.tsx). */
module ChatView {
  import opened Options
  import opened SocketEvents
  import opened CachePatch

  /** `lastMarkedSeqRef.current`: the highest counter already marked, per contact. */
  type Guards = map<ContactId, int>

  function Marked(guards: Guards, id: ContactId): int {
    if id in guards then guards[id] else 0
  }

  /** Whether tryMarkRead sends read:mark. */
  predicate ShouldMark(guards: Guards, visible: bool, id: ContactId, currentSeq: int) {
    visible && currentSeq > Marked(guards, id)
  }

  function AfterMark(guards: Guards, visible: bool, id: ContactId, currentSeq: int): Guards {
    if ShouldMark(guards, visible, id, currentSeq) then guards[id := currentSeq] else guards
  }

  /** The counter the view sees: the contact's row in the WHATSAPP list (useConversationRow). */
  function RowSeq(cache: Cache, open: Option<ContactId>): Option<int> {
    var key := ByChannel(WHATSAPP);
    if open.None? || open.value == "" || key !in cache then None
    else
      var idx := FindIndex(cache[key], open.value);
      if idx == -1 then None else Some(cache[key][idx].lastMessageSeq)
  }

  class View {
    var lastMarked: Guards
    /** read:mark events sent, oldest first. */
    var sent: seq<ContactId>

    constructor ()
      ensures lastMarked == map[] && sent == []
    {
      lastMarked, sent := map[], [];
    }

    /** The guard is raised before the emit, so one counter value is marked at most once. */
    method TryMarkRead(visible: bool, id: ContactId, currentSeq: int)
      modifies this
      ensures lastMarked == AfterMark(old(lastMarked), visible, id, currentSeq)
      ensures sent == old(sent) + (if ShouldMark(old(lastMarked), visible, id, currentSeq) then [id] else [])
      ensures !ShouldMark(lastMarked, visible, id, currentSeq)
      ensures var marked := if id in old(lastMarked) then old(lastMarked)[id] else 0;
              if visible && marked < currentSeq then
                lastMarked == old(lastMarked)[id := currentSeq] && sent == old(sent) + [id]
              else lastMarked == old(lastMarked) && sent == old(sent)
    {
      if !visible { return; }
      if currentSeq <= Marked(lastMarked, id) { return; }
      lastMarked := lastMarked[id := currentSeq];
      sent := sent + [id];
    }

    /** Both effects of the view run this for the open contact, when its row is loaded. */
    method Effect(cache: Cache, open: Option<ContactId>, visible: bool)
      modifies this
      ensures var row := RowSeq(cache, open);
              if row.Some? && ShouldMark(old(lastMarked), visible, open.value, row.value)
              then lastMarked == old(lastMarked)[open.value := row.value] && sent == old(sent) + [open.value]
              else lastMarked == old(lastMarked) && sent == old(sent)
      ensures !visible || open.None? || open.value == "" || ByChannel(WHATSAPP) !in cache ==>
                lastMarked == old(lastMarked) && sent == old(sent)
      ensures visible && open.Some? && open.value != "" && ByChannel(WHATSAPP) in cache ==>
                var list := cache[ByChannel(WHATSAPP)];
                var idx := FindIndex(list, open.value);
                var marked := if open.value in old(lastMarked) then old(lastMarked)[open.value] else 0;
                if idx != -1 && marked < list[idx].lastMessageSeq then
                  && lastMarked == old(lastMarked)[open.value := list[idx].lastMessageSeq]
                  && sent == old(sent) + [open.value]
                else lastMarked == old(lastMarked) && sent == old(sent)
    {
      var row := RowSeq(cache, open);
      if row.Some? {
        TryMarkRead(visible, open.value, row.value);
      }
    }
  }
}
