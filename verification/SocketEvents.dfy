/** Wire payloads and the sidebar row they patch (frontend/contracts/socketEvents.ts). */
module SocketEvents {
  import opened Options

  type ContactId = string

  datatype Channel = WHATSAPP | EMAIL

  datatype Direction = INBOUND | OUTBOUND

  /** One row of a sidebar list. `channelState` is kept as its serialized text. */
  datatype Conversation = Conversation(
    contactId: ContactId,
    contactName: string,
    lastMessagePreview: string,
    lastMessageAt: string,
    lastMessageChannel: Channel,
    lastMessageSeq: int,
    lastReadSeq: int,
    lastReadAt: Option<string>,
    unreadCount: int,
    channels: seq<Channel>,
    assignedToId: Option<string>,
    channelState: Option<string>)

  datatype UpdatedPayload = UpdatedPayload(
    contactId: ContactId,
    lastMessagePreview: string,
    lastMessageAt: string,
    lastMessageChannel: Channel,
    lastMessageDirection: Direction,
    lastMessageSeq: int,
    lastReadSeq: int,
    updatedField: string)

  datatype NewPayload = NewPayload(
    contactId: ContactId,
    contactName: string,
    organization: Option<string>,
    channel: Option<Channel>,
    identifier: Option<string>,
    enquiryId: string,
    lastMessagePreview: string,
    lastMessageAt: string,
    lastMessageChannel: Channel,
    lastMessageDirection: Direction,
    lastMessageSeq: int,
    lastReadSeq: int)

  datatype ReadPayload = ReadPayload(contactId: ContactId, lastReadSeq: int)

  /** The three events that patch cached sidebar lists. */
  datatype Payload =
    | Updated(update: UpdatedPayload)
    | New(created: NewPayload)
    | Read(read: ReadPayload)
  {
    function Contact(): ContactId {
      match this
      case Updated(p) => p.contactId
      case New(p) => p.contactId
      case Read(p) => p.contactId
    }
  }

  /** The unread badge: never negative, and derived from the two counters only. */
  function Badge(lastMessageSeq: int, lastReadSeq: int): nat {
    if lastMessageSeq > lastReadSeq then lastMessageSeq - lastReadSeq else 0
  }

  function ConversationFromNewPayload(p: NewPayload): Conversation {
    Conversation(p.contactId, p.contactName, p.lastMessagePreview, p.lastMessageAt, p.lastMessageChannel,
                 p.lastMessageSeq, p.lastReadSeq, None, Badge(p.lastMessageSeq, p.lastReadSeq),
                 if p.channel.Some? then [p.channel.value] else [], None, None)
  }
}
