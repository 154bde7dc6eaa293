# Messaging protocols: a Dafny model

This project models the parts of the messaging application that carry protocol state, and proves what they
keep, in Dafny 4.11. `dafny verify dfyconfig.toml` checks all of it.

## What is modelled

**The team read watermark.** The server keeps `lastMessageSeq` and `lastReadSeq` per contact; clients patch
cached sidebar lists from socket events; the open chat sends `read:mark` under a per-contact guard; the badge
is `max(0, lastMessageSeq - lastReadSeq)`.
- `SocketEvents`, `CachePatch`, `Sidebar`: payloads, the three cache-patching functions as methods of a mutable
  `QueryCache`, and what a list looks like after any run of events, stated on the events alone.
- `ReadGateway`, `ChatView`: `handleReadMark` and `tryMarkRead` as methods of their objects.
- `ReadProtocol`: one server, any number of clients, and everything in flight, as a transition system whose steps
  are split at every `await`. Payloads may be reordered, lost and duplicated.
- `ReadConvergence`: the orderly runs (a snapshot is emitted in the step that takes it, delivery in order and
  lossless, one channel per contact), shown to be runs of the general system.
- `ReadBroadcasts`: when the broadcasts of interleaved read marks are distinct, and when they rise.
- `OtherLists`: how far rows of lists other than the contact's own lag behind.
- `ReadTermination`: an explicit potential bounds the read-mark feedback loop.

**Team chat.** `ChatWindow` is the paged window over the growing log, with the server's three page queries;
`OptimisticSend` the optimistic rows; `TeamChatRoom` the component's mutable state, each handler tied to the
specification functions of the other two. `SocketRooms` is the client's reference-counted room holding across
reconnects, `ServerRooms` the rooms its connection is in while chat joins await their check; `ChatMembership` the
server's gated joins and the live kick.

**Search, templates, highlighting.** `GraphSearch` and `GraphSearchLimits` are the depth-limited search over the
import graph, `TemplateParse` the marker grammar, written out as a scanner, with its three consumers, `Highlight`
the keyword scanning loop.

**Small protocols.** `Idempotency` is the guard, interruptible between its read and its decision; `Drafts` the
debounced draft saving; `ApiClient` the retry loop.

## Where the code does less than it seems to promise

Each of these is stated with its exact condition, proved in both directions, in the lemma marked *exact*.
- A depth-limited search can miss files within the depth: a file first met on a long path is not expanded again when
  a shorter path reaches it. All files within the depth are returned on every graph exactly for depths up to 1; the
  default depth is 2 (exact: `AllWithinHopsIff`; on one graph: `CompleteIffCutLosesNothing`).
- The idempotency guard admits a key again once its record is over two minutes old and still processing, and admitting
  it does not renew the record, so every further retry is admitted too (exact: `AtMostOnceIff`; `EveryRetryAdmitted`).
  A completed key can be admitted once more by a request that read its record before (exact: `CompletionIsFinalIff`).
- `getMessagesAround` takes a full side for a side with more behind it. A window opened around a message with exactly
  `after` newer messages stands at the tail, believes otherwise, and holds the next message back
  (exact: `ShowsAround`, `AroundShowsNextMessage`, `FlagsStayExactIff`).
- A page that arrives after the window was replaced can leave a gap, or cursors of another place (exact:
  `LateOlderPage`, `LateNewerPage`, `LateOlderShowsIff`, `LateNewerShowsIff`, `LateLastPage`).
- `saveForLater` sends the text captured when its callback was created, after the pending patch; a newer edit can be
  overwritten (exact: `StepKeepsIff`; a run: `SaveForLaterOverwritesEdit`).
- A patch field that is present but undefined drops the pending value of that field (exact: `MergeComposesIff`).
- `chat:join` checks membership, awaits, then joins, so a join under way escapes a kick handled in between (exact:
  `LiveKickIff` for one kick, `OnlyMembersReceiveIff` for whole runs; a run: `LateJoinEscapesKick`).
- The server can be in a room nobody holds: one acquired and given up while offline, which the reconnect joins, or a
  chat opened and closed while connected, whose leave overtook its join (exact: `HeldRoomsAreExactIff` on whole runs,
  `ReconnectIsExactIff` at a reconnect; runs: `OfflineAcquireLeaks`, `CloseOvertakesOpen`).
- `highlightKeyword` is documented as wrapping every occurrence; it skips those that overlap a marked one
  (exact: `MarksAllIff`).
- Message events patch only the list of the message's channel, never the unified list, whose rows fall behind by the
  messages since it was fetched (exact: `OtherListsLag`). The page that shows the sidebar,
  frontend/app/(dashboard)/inbox/[channel]/page.tsx line 26, always asks for one channel, so no screen shows such a row
  for a contact of one channel.
- The comment on the caught-up check of `handleReadMark` says it prevents doubled broadcasts; two marks that pass the
  check before either updates still broadcast twice, and two updates can be broadcast in the other order (exact:
  `BroadcastsDistinctIff`, `BroadcastsRiseIff`; a run from the start: `DoubledFromTheStart`).

A condition the code relies on, rather than a shortfall: a reconnect rejoins the room that is held exactly when its id
contains no colon (`RejoinsTheHeldRoom`), and the schema generates UUIDs.

## Model

| member | source | states |
|---|---|---|
| CachePatch.QueryCache.ApplyConversationUpdate | frontend/lib/cachePatch.ts:27-50 | only the list of the message's channel can change: a list that holds the contact gets its row in front with the new preview, time and counters and every other field as it was, the others following in order; any other list stays |
| CachePatch.QueryCache.InsertNewConversation | frontend/lib/cachePatch.ts:64-93 | likewise in the list of the enquiry's channel, WHATSAPP by default, and a list without the contact gets a row with the event's name, channels and unread count in front |
| CachePatch.QueryCache.ApplyReadUpdate | frontend/lib/cachePatch.ts:104-119 | in every cached list the contact's row gets the watermark in place, and nothing else changes |
| CachePatch.OthersKeepsOrder | frontend/lib/cachePatch.ts:46-49 | filtering out a contact keeps all other rows in their relative order |
| CachePatch.OthersComplete | frontend/lib/cachePatch.ts:46-49 | and loses none of them |
| CachePatch.PatchedRows | frontend/lib/cachePatch.ts:38-44 | every row after an event was there before or shows the event's preview, time and counters |
| CachePatch.PatchedUnique | frontend/lib/cachePatch.ts:27-119 | no event makes a contact appear twice in a list |
| CachePatch.PatchedContacts | frontend/lib/cachePatch.ts:35-36 | a list gains a contact exactly by a new-conversation event for its channel, and never loses one |
| Sidebar.ListsAreIndependent | frontend/lib/cachePatch.ts:31-33 | over any run of events each cached list evolves on its own and none appears or disappears |
| Sidebar.MoveToFront | frontend/lib/cachePatch.ts:27-119 | after any run a list has one row per contact, exactly the fetched and inserted contacts, ordered by latest update or new event, untouched rows in fetched order, reads never reordering |
| Sidebar.LastWriterWins | frontend/lib/cachePatch.ts:38-44 | every row shows the preview, time and counters of the last events that wrote them |
| Sidebar.RowsKeepIdentity | frontend/lib/cachePatch.ts:38-92 | after any run a fetched contact's row equals its fetched row outside the preview, the time and the two counters, and an inserted one carries the name, channels and unread count of the first new-conversation event that brought it |
| Sidebar.PatchedRowKeeps | frontend/contracts/socketEvents.ts:97-112 | one event: a row is one of before outside those four fields, or the row the event introduces |
| Sidebar.UnifiedListNeverBumped | frontend/lib/cachePatch.ts:31-33 | no message event ever reaches the unified list: its order and message counters stay as fetched |
| ReadGateway.AppGateway.constructor | backend/src/websocket/app.gateway.ts:71-83 | the gateway starts with consistent, empty state |
| ReadGateway.AppGateway.AddContact | backend/prisma/schema.prisma:73-88 | a new contact starts with both counters 0, an existing one is left alone |
| ReadGateway.AppGateway.AppendMessage | backend/src/common/utils/conversation-seq.util.ts:9-19 | a message takes the next number of its contact, fails when there is none, and keeps all watermarks and past broadcasts consistent |
| ReadGateway.AppGateway.HandleReadMark | backend/src/websocket/app.gateway.ts:188-224 | refusals and caught-up marks change nothing; any other mark raises the contact's watermark to its counter, leaves the counter and all other contacts, and broadcasts that value, strictly above all earlier ones |
| ReadGateway.BroadcastsNeverExceedMessages | backend/src/websocket/app.gateway.ts:201-220 | with the handler as one step, a contact is broadcast at most as often as it received messages |
| ChatView.View.TryMarkRead | frontend/components/inbox/WhatsAppChatView.tsx:35-40 | a mark is sent exactly when visible and above the guard, and the same counter is never marked again |
| ChatView.View.Effect | frontend/components/inbox/WhatsAppChatView.tsx:43-58 | both effects mark the open contact's cached counter, and nothing when its row is not loaded |
| ReadProtocol.SafeStep | backend/src/websocket/app.gateway.ts:195-220 | one step, however interleaved, keeps every payload, cached row and guard at most the server's value, and lowers no counter |
| ReadProtocol.SafeRun | backend/src/events/app.event-handler.ts:308-365 | the same over whole runs with reordered, lost and duplicated payloads |
| ReadProtocol.PatchBounded | frontend/lib/cachePatch.ts:38-44 | patching a bounded list with a bounded payload leaves it bounded and unique |
| ReadProtocol.EffectBounded | frontend/components/inbox/WhatsAppChatView.tsx:35-47 | the view never marks beyond the server's counter |
| ReadProtocol.MarkHandled | backend/src/websocket/app.gateway.ts:195-212 | once a mark is handled, the server has read at least as far as the guard that sent it |
| ReadProtocol.MarksCoveredStep | frontend/components/inbox/WhatsAppChatView.tsx:35-40 | invariantly, a guard with no mark on the way is covered by the server's watermark |
| ReadProtocol.EffectsCoveredStep | frontend/components/inbox/WhatsAppChatView.tsx:42-58 | invariantly, an open visible chat whose counter exceeds its guard has an effect due |
| ReadProtocol.InvariantRun | frontend/components/inbox/WhatsAppChatView.tsx:31-58 | all three invariants hold in every state of every run |
| ReadProtocol.CountersCountMessages | backend/src/common/utils/conversation-seq.util.ts:9-19 | on every run a contact's counter rises by one for each of its messages and by nothing else |
| ReadProtocol.PayloadsConserved | backend/src/events/app.event-handler.ts:308-365 | an emit puts one copy on the way to every client, and no step makes up or swallows one but a duplicate, a loss or a delivery |
| ReadProtocol.RemountMarksAgain | frontend/components/inbox/WhatsAppChatView.tsx:31-47 | a remounted view has forgotten its guards and marks the open contact again |
| ReadProtocol.OpeningMarks | frontend/components/inbox/WhatsAppChatView.tsx:42-47 | opening a contact marks it exactly when its row counts further than was marked |
| ReadProtocol.ShowingMarks | frontend/components/inbox/WhatsAppChatView.tsx:49-58 | so does coming to the front; a view sent to the back marks nothing |
| ReadConvergence.ConvergesEmit | backend/src/events/app.event-handler.ts:308-365 | emitting a fresh snapshot settles its contact for every client and unsettles no other |
| ReadConvergence.ConvergesDeliver | frontend/lib/cachePatch.ts:27-119 | delivering the head of a queue moves exactly its pending writes into the rows |
| ReadConvergence.Convergence | backend/src/events/app.event-handler.ts:308-365 | on every orderly run, a client with an empty queue shows the server's watermark in every row, and the server's counter in the contact's own list |
| ReadConvergence.QuietMeansRead | frontend/components/inbox/WhatsAppChatView.tsx:33-58 | when an orderly run is at rest, a contact open and visible anywhere has watermark equal to counter on the server and in its own list at every client, so unread is 0 |
| ReadConvergence.OrderlyRefines | backend/src/events/app.event-handler.ts:308-324 | every orderly run is a run of the general system ending in the same state |
| ReadConvergence.LastDeliveryDecides | frontend/lib/cachePatch.ts:38-44 | rows are overwritten, not maximized: delivering two updates out of order leaves the older counter |
| ReadBroadcasts.UpdatesRiseIff | backend/src/websocket/app.gateway.ts:201-212 | on every run, however interleaved, the watermarks set for a contact rise strictly above the starting one if and only if no update of it runs when it is caught up |
| ReadBroadcasts.EmittedOnce | backend/src/websocket/app.gateway.ts:212-220 | in whatever order they leave, every watermark set is emitted or still waiting, once each |
| ReadBroadcasts.EmittedInOrder | backend/src/websocket/app.gateway.ts:212-220 | when each emit takes the contact's oldest payload, the emitted watermarks followed by those still waiting are those set |
| ReadBroadcasts.BroadcastsDistinctIff | backend/src/websocket/app.gateway.ts:201-220 | once all are out, in whatever order, a contact's broadcasts are distinct and above its starting watermark if and only if no update of it ran when it was caught up |
| ReadBroadcasts.BroadcastsRiseIff | backend/src/websocket/app.gateway.ts:201-220 | once all are out, a contact's broadcasts rose strictly above its starting watermark if and only if no update of it ran when it was caught up and they left in the order of their updates |
| ReadBroadcasts.RisingBroadcastsAreFew | backend/src/websocket/app.gateway.ts:201-220 | on a run with no such update and nothing waiting at the start, the contact is broadcast at most as often as its watermark rose |
| ReadBroadcasts.DoubledFromTheStart | backend/src/websocket/app.gateway.ts:201-220 | from every starting state with two visible clients and an unread contact, some run broadcasts the same watermark twice, to every client |
| OtherLists.OtherListsLag | frontend/lib/cachePatch.ts:31-33 | on every orderly run a row of a list that is not its contact's own is behind the server by exactly the contact's messages since the fetch, so it is right if and only if there were none |
| OtherLists.PatchKeepsForeignRows | frontend/lib/cachePatch.ts:27-119 | an event for a contact's own list changes no message counter in any other list and adds no row there |
| ReadTermination.InternalStepLowers | frontend/components/inbox/WhatsAppChatView.tsx:35-47 | every step the system takes on its own lowers the potential |
| ReadTermination.MarkIsPaidFor | frontend/components/inbox/WhatsAppChatView.tsx:35-40 | each mark closes the gap between guards and counters by at least one |
| ReadTermination.FeedbackLoopTerminates | backend/src/websocket/app.gateway.ts:201-220 | once messages and user actions stop, every run is at most as long as the potential |
| ReadTermination.ComesToRest | backend/src/websocket/app.gateway.ts:188-224 | from every safe state a state at rest is reached within the potential |
| ReadTermination.OpenChatGetsRead | frontend/components/inbox/WhatsAppChatView.tsx:31-58 | from any state of an orderly run, the protocol's own steps can bring an open, visible, loaded contact to unread 0 |
| ReadTermination.OpenChatAlwaysGetsRead | frontend/components/inbox/WhatsAppChatView.tsx:31-58 | and whichever of its own steps it takes, it stops within the potential, and where it cannot go on the contact's watermark is its counter and its unread count 0 |
| ChatWindow.OlderPageIsSlice | backend/src/modules/chat/chat.service.ts:358-398 | an older page is the stretch of the log before its cursor, and its flag and cursor are exact |
| ChatWindow.NewerPageIsSlice | backend/src/modules/chat/chat.service.ts:484-510 | a newer page is the stretch after its cursor, and its flag and cursor are exact |
| ChatWindow.ShowsLatest | frontend/components/chat/TeamChatRoom.tsx:197-206 | opening at the newest page shows the tail of the log with exact flags |
| ChatWindow.ShowsAround | backend/src/modules/chat/chat.service.ts:521-571 | opening around a message shows a slice; its flags are exact if and only if neither side holds exactly as many messages as asked for |
| ChatWindow.ShowsAfterOlder | frontend/components/chat/TeamChatRoom.tsx:403-422 | loading older extends the slice downwards by a page and makes the older flag exact |
| ChatWindow.ShowsAfterNewer | frontend/components/chat/TeamChatRoom.tsx:426-444 | loading newer extends it upwards, makes the newer flag exact, and releases the anchor at the tail |
| ChatWindow.ShowsAfterPost | frontend/components/chat/TeamChatRoom.tsx:243-255 | a window at the tail follows a delivered message, an anchored one stays a slice |
| ChatWindow.ShowsAfterNewest | frontend/components/chat/TeamChatRoom.tsx:461-473 | the down-arrow replaces an anchored window by the tail of the log and leaves any other, and no anchor remains |
| ChatWindow.ShowsAfterJump | frontend/components/chat/TeamChatRoom.tsx:482-516 | a search result that is not loaded gets the window around it, one that is loaded changes nothing |
| ChatWindow.StepMoves | frontend/components/chat/TeamChatRoom.tsx:160-516 | every event of a run moves the ends of the window to exact places of the log |
| ChatWindow.NewestReachesTail | frontend/components/chat/TeamChatRoom.tsx:461-473 | in every state of a run the down-arrow leads to the newest message |
| ChatWindow.UnknownIds | backend/src/modules/chat/chat.service.ts:358-571 | pages at an id the log does not hold are empty, and a jump to it does nothing |
| ChatWindow.WindowRefinesLog | frontend/components/chat/TeamChatRoom.tsx:160-255 | on every run of loads, jumps and messages the window is a contiguous slice of the log, and reaches its end unless anchored |
| ChatWindow.FlagsStayExactIff | backend/src/modules/chat/chat.service.ts:521-571 | exact flags stay exact on a step if and only if it is no jump that fills a side exactly |
| ChatWindow.LoadsReachWholeLog | frontend/components/chat/TeamChatRoom.tsx:403-444 | from any window, enough older loads and then enough newer loads show the whole log in order, without duplicates, and stop |
| ChatWindow.AroundShowsNextMessage | frontend/components/chat/TeamChatRoom.tsx:178-185 | a window opened around a message shows the next incoming one if and only if fewer than `after` messages followed the target |
| ChatWindow.LateOlderPage | frontend/components/chat/TeamChatRoom.tsx:409-416 | an older page arriving after the window was replaced keeps it contiguous if and only if its end still touches the window |
| ChatWindow.LateNewerPage | frontend/components/chat/TeamChatRoom.tsx:430-438 | the same for a newer page and its start |
| ChatWindow.LateOlderShowsIff | frontend/components/chat/TeamChatRoom.tsx:409-416 | after a late older page messages, cursors and flags still describe one slice if and only if the page's end touches the window and it reaches down to the window's start |
| ChatWindow.LateNewerShowsIff | frontend/components/chat/TeamChatRoom.tsx:430-438 | the same for a late newer page, which must reach up to the window's end |
| ChatWindow.LateLastPage | frontend/components/chat/TeamChatRoom.tsx:430-438 | a last newer page releases the anchor, and the window reaches the tail if and only if no message arrived while the page was on its way |
| TeamChatRoom.Room.Open | frontend/components/chat/TeamChatRoom.tsx:160-214 | the initial load leaves the window around the first unread message, or the newest page |
| TeamChatRoom.Room.LoadOlderPage | frontend/components/chat/TeamChatRoom.tsx:403-422 | the handler leaves the specified window; a failed fetch changes nothing |
| TeamChatRoom.Room.LoadNewerPage | frontend/components/chat/TeamChatRoom.tsx:426-444 | the same for newer pages |
| TeamChatRoom.Room.JumpToNewest | frontend/components/chat/TeamChatRoom.tsx:461-478 | an anchored room gets the newest page with exact flags and loses its anchor; any other, and a failed fetch, changes nothing |
| TeamChatRoom.Room.SelectSearchResult | frontend/components/chat/TeamChatRoom.tsx:482-516 | the same for a search result, loaded or not, found or not |
| TeamChatRoom.Room.ReceiveMessage | frontend/components/chat/TeamChatRoom.tsx:243-255 | own messages, messages behind an anchored window and known ids are skipped, any other appended |
| TeamChatRoom.Room.StartSend | frontend/components/chat/TeamChatRoom.tsx:553-589 | the optimistic row is appended pending |
| TeamChatRoom.Room.FinishSend | frontend/components/chat/TeamChatRoom.tsx:591-600 | the row with this temporary id is replaced by the saved message or marked failed |
| OptimisticSend.RunIsOutcomes | frontend/components/chat/TeamChatRoom.tsx:553-600 | under any interleaving the list is the history followed by one row per send or message in order, each showing its own outcome |
| OptimisticSend.EachSendHasItsRow | frontend/components/chat/TeamChatRoom.tsx:553-600 | every send has its own row in order, its text under the temporary id while pending, then the stored message or its text marked failed; incoming messages stand as they came, and there are no other rows |
| OptimisticSend.AllResolvedNothingPending | frontend/components/chat/TeamChatRoom.tsx:591-600 | once every send is resolved no row is pending |
| OptimisticSend.ResolutionsCommute | frontend/components/chat/TeamChatRoom.tsx:594-599 | resolutions of different sends commute on every list |
| OptimisticSend.ResolutionIsLocal | frontend/components/chat/TeamChatRoom.tsx:594-599 | a resolution keeps length and order and changes exactly one row, which was pending and no longer is |
| SocketRooms.RejoinsTheHeldRoom | frontend/lib/socket.ts:78-85 | a reconnect joins the room that is held if and only if its id contains no colon |
| SocketRooms.RejoinsUpToColon | frontend/lib/socket.ts:79 | an id with a colon is cut at the first one |
| SocketRooms.KeysAreDistinct | frontend/lib/socket.ts:195-254 | no two rooms share a key |
| SocketRooms.SocketClient.RetainRoom | frontend/lib/socket.ts:36-40 | one more holder of this room and of no other, its key last when it is new; true exactly for the first |
| SocketRooms.SocketClient.ReleaseRoom | frontend/lib/socket.ts:45-53 | one holder less of this room only, the key of the last cut out and the others left in order; true exactly for the last, or for a room not held |
| SocketRooms.SocketClient.HandleSocketReconnect | frontend/lib/socket.ts:74-93 | sends exactly the reconnect trace: all joins, then at most one sync:since |
| SocketRooms.RejoinsAreTheKeys | frontend/lib/socket.ts:78-85 | the joins of the trace are the held keys, each once, in insertion order |
| SocketRooms.WithoutCutsOut | frontend/lib/socket.ts:48 | deleting a key keeps the order of the others, and every key stays listed once |
| SocketRooms.CursorIsMaximum | frontend/stores/inboxStore.ts:96-102 | a contact's cursor is the largest number recorded for it, never below 0 |
| SocketRooms.InvariantStep | frontend/lib/socket.ts:195-254 | acquiring, releasing, connecting, dropping and delivering keep counts equal to holders, and keep the emits, taken one by one, in step with the held rooms |
| SocketRooms.ReconnectInOrderIff | frontend/lib/socket.ts:74-93 | the emits of a reconnect, taken one by one, lead to the held rooms and no other if and only if every admitted room with a buffered join is still held |
| ServerRooms.InvariantStep | backend/src/websocket/app.gateway.ts:293-324 | with chat joins split at their await and leaves at once, the server differs from taking the emits one by one in the late rooms and in nothing else |
| ServerRooms.HeldRoomsAreJoined | frontend/lib/socket.ts:36-93 | on every run, once settled, the server has every held room it admits, and otherwise only rooms acquired and released offline and late ones; exactly the held rooms when neither happened on the run |
| ServerRooms.SettledIsExactIff | backend/src/websocket/app.gateway.ts:301-324 | settled, the server has exactly the held rooms if and only if no leave overtook a join of a room not joined again, and every admitted room joined in excess is held |
| ServerRooms.HeldRoomsAreExactIff | frontend/lib/socket.ts:36-93 | the same on every run from the start |
| ServerRooms.ReconnectIsExactIff | frontend/lib/socket.ts:74-93 | however the server works off a reconnect, it ends in the held rooms and no other if and only if every admitted room with a buffered join is still held |
| ServerRooms.ServerCanSettle | backend/src/websocket/app.gateway.ts:293-324 | the server can always work off what it has and finish every join |
| SocketRooms.SyncSendsMaxima | frontend/lib/socket.ts:87-92 | a reconnect after any run ends with the per-contact maximum of everything the run recorded, and sends no cursors when it recorded nothing |
| ServerRooms.OfflineAcquireLeaks | frontend/lib/socket.ts:195-216 | a room acquired and released while offline is joined on reconnect, in whatever order joins finish, although nobody holds it |
| ServerRooms.CloseOvertakesOpen | backend/src/websocket/app.gateway.ts:301-324 | a chat opened and closed while connected can leave its socket in a room nobody holds |
| ChatMembership.Gateway.EmitTo | backend/src/events/app.event-handler.ts:64-69 | an emit reaches exactly the sockets in the room, once each |
| ChatMembership.Gateway.HandleConnection | backend/src/websocket/app.gateway.ts:87-131 | a socket with a valid token enters its user's room; any other changes nothing |
| ChatMembership.Gateway.HandleChatJoin | backend/src/websocket/app.gateway.ts:293-310 | a socket joins exactly when authenticated, with an id, and its user is a member |
| ChatMembership.Gateway.HandleChatLeave | backend/src/websocket/app.gateway.ts:314-324 | leaving removes this socket from this room only |
| ChatMembership.Gateway.OnMembershipRemoved | backend/src/events/app.event-handler.ts:436-445 | every tab of the user is told, then exactly the sockets in the user's personal room are out of this room, and every other pair stays |
| ChatMembership.Gateway.OnChatMessageCreated | backend/src/events/app.event-handler.ts:56-80 | the message reaches exactly the room, the notification exactly the personal rooms of members other than the sender, with exact counts |
| ChatMembership.JoinIsCheckThenFinish | backend/src/websocket/app.gateway.ts:301-308 | a join without interruption is its check followed at once by the join |
| ChatMembership.RoomsChangeIff | backend/src/websocket/app.gateway.ts:293-324 | after a step a room holds exactly those who enter and those who were there and neither leave, close nor are removed: everyone else is spared |
| ChatMembership.KickSparesOthers | backend/src/events/app.event-handler.ts:442-444 | a kick takes the removed user's sockets out of that one room and touches no other pair |
| ChatMembership.UsersAndMembersChangeIff | backend/src/events/app.event-handler.ts:430-445 | connections and memberships change by the step that says so and by no other |
| ChatMembership.LiveKickIff | backend/src/events/app.event-handler.ts:436-445 | with joins split at their await: once a removal is handled, no socket of that user, in any tab and however reconnected, is in the room until the user is a member again, if and only if no join of theirs had passed its check and was still to finish |
| ChatMembership.StaysOutIff | backend/src/websocket/app.gateway.ts:293-310 | a user who is out and no member stays out on every continuation if and only if none of their checked joins is pending |
| ChatMembership.LateJoinEscapesKick | backend/src/websocket/app.gateway.ts:301-308 | from every quiet state with a member, a check before and a join after the kick leaves a non-member in the room |
| ChatMembership.BackOnlyByJoining | backend/src/events/app.event-handler.ts:430-445 | even a new membership brings no socket back: only a join of that room, in one step or split, does |
| ChatMembership.OnlyMembersReceiveIff | backend/src/websocket/app.gateway.ts:287-310 | on a run from the start, split joins included, everyone in a room is always a member or about to be kicked, whichever join finishes next, if and only if no kick comes between the check and the join of the user it removes |
| ChatMembership.OneStepJoinsAreSound | backend/src/websocket/app.gateway.ts:293-310 | with every join in one step it holds on all runs |
| GraphSearch.Search.RunDfs | backend/graph/query.ts:12-36 | the recursive search over the mutable set and array leaves exactly the visits of `Dfs` |
| GraphSearch.GetRelated | backend/graph/query.ts:8-40 | the whole search returns the specified list |
| GraphSearch.FindPrefixFinds | backend/graph/query.ts:27-29 | resolving finds a file starting with the path whenever there is one |
| GraphSearch.FindPrefixIsFirst | backend/graph/query.ts:27-29 | of the files starting with the path the first in key order is found |
| GraphSearch.ImportsMeans | backend/graph/query.ts:20-34 | one file imports another exactly when a relative specifier of it has that file, with a nonempty name, as its first match |
| GraphSearch.SearchFollowsSpecifiers | backend/graph/query.ts:12-36 | every file above the cut is followed at once by the first of its imports not in the result by then |
| GraphSearch.BoundedSearch | backend/graph/query.ts:12-36 | for any depth: no file twice, each on an import path of its level within the depth, and every import of a file above the cut included |
| GraphSearch.OnlyWithinHops | backend/graph/query.ts:13 | nothing returned is further than the depth |
| GraphSearch.CompleteIffCutLosesNothing | backend/graph/query.ts:13 | all reachable files are returned if and only if every import of a file visited at the last level was visited anyway |
| GraphSearch.NeverCut | backend/graph/query.ts:13 | with depth at least the number of files minus one, the cut never fires on a file not visited yet |
| GraphSearch.CompleteWhenDeepEnough | backend/graph/query.ts:8-40 | with that depth the result is exactly the reachable files |
| GraphSearchLimits.DepthBoundIsTight | backend/graph/query.ts:8-40 | for every depth there is a graph with one file more than the bound allows on which a reachable file is missed |
| GraphSearchLimits.AllWithinHopsIff | backend/graph/query.ts:8-13 | every file within the depth is returned on every graph if and only if the depth is at most 1 |
| TemplateParse.ExecFindsLeftmost | frontend/lib/template-parse.ts:11 | the scanner returns a marker, and the leftmost one |
| TemplateParse.MarkerEndIsExact | frontend/lib/template-parse.ts:11 | a position starts a marker exactly when brackets enclose a nonempty bracket-free interior, ending where the scanner says |
| TemplateParse.TrimIsExact | frontend/lib/template-parse.ts:62-63 | trimming cuts exactly the white space at both ends |
| TemplateParse.TrimsExactlyThese | frontend/lib/template-parse.ts:62-63 | the characters trimmed are the white space and line ends of ECMAScript |
| TemplateParse.TokenizeBody | frontend/lib/template-parse.ts:50-71 | the loop returns the specified tokens |
| TemplateParse.TokenizeIsExact | frontend/lib/template-parse.ts:50-71 | every token is read from its span, the spans partition the body, and the variable spans are exactly the markers |
| TemplateParse.TokensAreFilled | frontend/lib/template-parse.ts:62-64 | a marker's token carries v exactly when the values hold, for its trimmed label, v with white space around it, and nothing exactly when they hold none or a blank value |
| TemplateParse.RenderAgreesWithTokens | frontend/lib/template-parse.ts:77-82 | rendering is the concatenation of the tokens: text verbatim, filled values trimmed, unfilled ones as their source marker |
| TemplateParse.RenderIsFilled | frontend/lib/template-parse.ts:77-82 | the rendered body is the text as it stands, each marker with a value replaced by that value without the space around it, and every other marker as it stands |
| TemplateParse.UnfilledIsUnchanged | frontend/lib/template-parse.ts:77-82 | with nothing to fill in, rendering returns the body |
| TemplateParse.ParseTemplateVariables | frontend/lib/template-parse.ts:25-40 | the loop returns the numbered labels of all markers |
| TemplateParse.LabelsAreTokenLabels | frontend/lib/template-parse.ts:25-66 | the labels numbered are those of the tokenizer's variable tokens |
| TemplateParse.LabelsAreMarkers | frontend/lib/template-parse.ts:30-32 | they are the trimmed interiors of all markers of the body, in order |
| TemplateParse.NumberedByFirstAppearance | frontend/lib/template-parse.ts:13-40 | positions are exactly 1..n, labels the nonempty ones, each once, by first appearance |
| Highlight.HighlightKeyword | frontend/components/chat/highlight.tsx:8-38 | the parts concatenate to the text, the marks are the leftmost non-overlapping occurrences ignoring case, keys count from 0 |
| Highlight.ScanMarks | frontend/components/chat/highlight.tsx:22-37 | the same for the while loop itself |
| Highlight.FindsLeftmost | frontend/components/chat/highlight.tsx:23 | indexOf finds an occurrence, and the leftmost one from its start |
| Highlight.OccurrencesMeetMarks | frontend/components/chat/highlight.tsx:22-35 | every occurrence is marked or overlaps an earlier marked one |
| Highlight.MarksAreApart | frontend/components/chat/highlight.tsx:22-35 | every mark is an occurrence, and no mark overlaps another |
| Highlight.MarksAllIff | frontend/components/chat/highlight.tsx:3-5 | every occurrence is marked in every text if and only if the term does not overlap a shifted copy of itself |
| Idempotency.IdempotencyGuard.CanActivate | backend/src/common/Idempotency/idempotency.guard.ts:18-64 | run without interruption: keyless requests pass, a new key is recorded; otherwise the record stays, and the answer is a mismatch exactly for another hash, an admission exactly for one processing for over 120000 ms, in progress or completed exactly by its status |
| Idempotency.IdempotencyGuard.Finish | backend/src/common/interceptors/idempotency.interceptor.ts:22-32 | completion changes the status of this key's record only, keeping its hash and age |
| Idempotency.ReadThenDecide | backend/src/common/Idempotency/idempotency.guard.ts:30-63 | the uninterrupted guard is the read step followed at once by the decision |
| Idempotency.InvariantStep | backend/src/common/Idempotency/idempotency.guard.ts:30-55 | every step keeps: the creator first and at the record's birth, everyone else after the window, all with its hash |
| Idempotency.OncePerWindow | backend/src/common/Idempotency/idempotency.guard.ts:30-55 | under any interleaving, a later admission of a key comes more than two minutes after creation and carries the same hash |
| Idempotency.AdmissionsCounted | backend/src/common/Idempotency/idempotency.guard.ts:34-55 | a key is admitted once for its creation and once per stale decision |
| Idempotency.AtMostOnceIff | backend/src/common/Idempotency/idempotency.guard.ts:52-55 | a run admits a key at most once if and only if it takes no stale decision for it |
| Idempotency.EveryRetryAdmitted | backend/src/common/Idempotency/idempotency.guard.ts:52-55 | past the window any number of retries is admitted, the record unchanged |
| Idempotency.CompletionIsFinalIff | backend/src/common/Idempotency/idempotency.guard.ts:30-60 | a completed key is never admitted again on any continuation if and only if no request under way holds a snapshot of its record, still processing, with the request's own hash |
| Idempotency.SnapshotOutlivesCompletion | backend/src/common/Idempotency/idempotency.guard.ts:30-55 | a request that read before the completion is still admitted after it |
| Drafts.MergeComposesIff | frontend/hooks/messaging/useDraft.ts:156 | merging patches means applying them in turn if and only if the later one blanks out no field the earlier one set |
| Drafts.DraftHook.constructor | frontend/hooks/messaging/useDraft.ts:48-75 | after loading, the local draft is the loaded one and nothing is pending |
| Drafts.DraftHook.UpdateDraft | frontend/hooks/messaging/useDraft.ts:133-165 | the text shows each field set, the pending patch has each field present in the edit and keeps the others, the timer is armed, and nothing is sent |
| Drafts.DraftHook.OnTimer | frontend/hooks/messaging/useDraft.ts:159-164 | what was pending is sent, nothing is pending or armed, and the text stays |
| Drafts.DraftHook.Flush | frontend/hooks/messaging/useDraft.ts:81-94 | the same for a flush, which is under way from then on; nothing happens while one is or when nothing is pending |
| Drafts.DraftHook.SaveForLater | frontend/hooks/messaging/useDraft.ts:208-223 | what is pending is sent, or with a saved draft and nothing pending the captured text |
| Drafts.DraftHook.OnAnswer | frontend/hooks/messaging/useDraft.ts:97-118 | a created draft is remembered, the flush ends with its own answer, and a save for later is followed by the captured text |
| Drafts.StepKeepsIff | frontend/hooks/messaging/useDraft.ts:81-223 | a step keeps everything typed if and only if it is lossless: no blanked field, no outdated captured text, no failed save of text that is not saved again |
| Drafts.CoalescingLosesNothing | frontend/hooks/messaging/useDraft.ts:97-165 | on every lossless run the server's draft with saves under way and pending patch is the local draft; with nothing left to save it is the server's |
| Drafts.PlainIsLossless | frontend/hooks/messaging/useDraft.ts:97-165 | edits by whole fields, timers, flushes and successful answers to them are lossless in every state |
| Drafts.PendingIsTimed | frontend/hooks/messaging/useDraft.ts:156-164 | on every run a pending patch has an armed timer |
| Drafts.FlushingIffItsSave | frontend/hooks/messaging/useDraft.ts:81-94 | on every run a flush counts as under way exactly while its one save is, so it never blocks the next for good |
| Drafts.FlushDelivers | frontend/hooks/messaging/useDraft.ts:81-118 | from any state that lost nothing and saves nothing for later, answers and one flush end with the user's text on the server and nothing left to save |
| Drafts.BurstIsOneSave | frontend/hooks/messaging/useDraft.ts:133-165 | any number of edits before the timer fires become one save that does what all of them did |
| Drafts.SaveForLaterOverwritesEdit | frontend/hooks/messaging/useDraft.ts:208-223 | a run of successful saves that ends with an older text on the server than on the screen |
| ApiClient.Call | frontend/lib/api-client.ts:176-277 | a delivered value, an HTTP error by its class or a network error is answered as the deciding attempt had it; all attempts before it were neither deliveries nor client errors; 3 attempts for GET and 1 otherwise unless told, none for a negative count; waits of 300 ms, tripled each time |
| ApiClient.TotalBackoff | frontend/lib/api-client.ts:268-272 | the waits before k retries add up to 150 * (3^k - 1) milliseconds |

## Left out

- The database, the Redis adapter, the Socket.IO transport, HTTP, JWT checks, logging: they appear as steps, queues and outcome values.
- The order in which one emit reaches different sockets; the transport decides it.
- Unread summaries, presence, typing, receipts, notifications' preview text, message edits, pins and reactions: they would add easy members only.
- SMS contacts and contacts without a last message channel: their payloads fail the client's schema and never reach the cache.
- Multi-channel contacts in the convergence results; safety covers them.
- ReadConvergence.Convergence: states the message counter for the contact's own list; OtherLists.OtherListsLag states it for the others.
- ChatWindow.LateOlderPage: states the messages; ChatWindow.LateOlderShowsIff adds the cursor and the flag.
- ChatWindow.LateNewerPage: states the messages; ChatWindow.LateNewerShowsIff adds the cursor, the flag and the anchor.
- Own messages in the window property: `onNewMessage` skips them and `handleSend` appends even to an anchored window, so contiguity does not hold there.
- Messages deleted for one user and equal creation times in the page queries; the log is taken in its one order.
- Messages that arrive between the initial fetch and the registration of the listener; reconnects of the open room.
- Access errors of the page queries other than a missing message; they count as failed fetches.
- A membership that changes while a connection holds the room: which rooms admit the client is fixed along a run of SocketRooms and ServerRooms, so a held room lost to a kick and not rejoined after a new membership is outside their results; ChatMembership has the membership steps.
- Logout, failed first connections and tokens that expire: room results are stated between logouts.
- ReadGateway.AppGateway.HandleReadMark: states one uninterrupted call; ReadProtocol has it split at its await, and ReadBroadcasts states its broadcasts there.
- ReadGateway.BroadcastsNeverExceedMessages: is about uninterrupted calls; ReadBroadcasts.RisingBroadcastsAreFew is the interleaved form.
- Drafts: discarding, clearing, deleting attachments, expiry of the server's draft, and loading while the user already types; the server's find-then-create is one step, so two drafts for one enquiry are not modelled.
- Template values are a map: a marker named like a member every JavaScript object inherits, such as `[constructor]`, reads that member instead of being unfilled.
- Highlight.HighlightKeyword: lower-casing is per character and keeps the length; the source's `toLowerCase` can change it for some characters.
- Error bodies, headers and query strings of the API client; a retry count that is not a whole number.
- The outbox, its 30-second sweep and `markOutboxFailed`, `slugifyName`, `isSystemLabel`, `getErrorLabel`.
