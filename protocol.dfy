/**
 * The values that travel between the chat server and its clients: stored
 * messages, the socket events the server emits, and the effects a handler
 * asks its transport to carry out.
 */
module Protocol {
  import opened Wrappers

  /**
   * A chat message as stored in a room and sent in `receive_message`.
   * `username` is the sending connection's bound name, absent when the
   * connection never joined.
   */
  datatype Message = Message(id: string, username: Option<string>, message: string, timestamp: int)

  /** Who receives an emitted event. */
  datatype Scope =
    | ToSender                      // socket.emit
    | ToRoom(roomId: string)        // io.to(roomId).emit: every socket subscribed to the room
    | ToOthersInRoom(roomId: string) // socket.to(roomId).emit: every socket subscribed to the room but the sender

  /** Server-to-client events with their payloads. */
  datatype Event =
    | UsernameChecked(isAvailable: bool, error: Option<string>)
    | Error(message: string)
    | RoomJoined(messages: seq<Message>, createdAt: int, cycleStartTime: int)
    | UserJoined(username: string, users: seq<string>)
    | UserLeft(username: string, users: seq<string>)
    | UserTyping(username: string)
    | UserStoppedTyping(username: string)
    | ReceiveMessage(msg: Message)
    | MessagesCleared(cycleStartTime: int)

  /** What a handler asks the transport and the timer service to do. */
  datatype Effect =
    | Emit(scope: Scope, event: Event)
    | Subscribe(roomId: string)                  // socket.join(roomId)
    | ScheduleCleanup(roomId: string, delay: int) // setTimeout of the empty-room deletion

  /** Client-to-server requests the client sends as a reaction to an event. */
  datatype Request = JoinRoom(roomId: string, username: string)

  const RoomNotFound: string := "Room not found"
  const UsernameTaken: string := "Username already taken"
}
