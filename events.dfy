/**
 * The live events the server emits through socket.io. An event is described
 * by its name, the rooms it is addressed to (room names are user ids, as the
 * clients joined them) and its payload; delivery itself is not modelled.
 */
module Events {
  import opened Documents

  datatype EventName = ReceiveMessage | MessageEdited | FriendRequestReceived

  /** `friend_request_received` carries the sender id as the client sent it (and a fixed text). */
  datatype Payload = MessagePayload(message: SerializedMessage) | FriendRequestNotice(senderId: string)

  datatype Event = Event(name: EventName, rooms: set<string>, payload: Payload)
}
