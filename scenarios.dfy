/**
 * End-to-end scenarios composed from the server handlers, with the clock readings and
 * fresh identifiers written out, showing what the composed handlers do.
 */
module Scenarios {
  import opened Wrappers
  import opened Protocol
  import opened Cycle
  import opened RoomServer

  /**
   * A room created at time 0; alice joins, says "hi" ten seconds in; the
   * sweep at 601 seconds empties the log and announces the boundary 600000.
   */
  method AliceSaysHi() returns (joined: seq<Effect>, sent: seq<Effect>, swept: seq<Effect>, log: seq<Message>)
    ensures joined == [ Subscribe("r1"),
                        Emit(ToSender, RoomJoined([], 0, 0)),
                        Emit(ToRoom("r1"), UserJoined("alice", ["alice"])) ]
    ensures sent == [Emit(ToRoom("r1"), ReceiveMessage(Message("m1", Some("alice"), "hi", 10000)))]
    ensures swept == [Emit(ToRoom("r1"), MessagesCleared(600000))]
    ensures log == []
  {
    var server := new Server();
    server.CreateRoom("r1", 0);
    var alice := new Connection();
    joined := server.JoinRoom(alice, "r1", "alice", 5000);
    assert server.rooms["r1"].users == ["alice"];
    sent := server.SendMessage(alice, "r1", "hi", "m1", 10000, 10000);
    assert server.rooms["r1"].messages == [Message("m1", Some("alice"), "hi", 10000)];
    assert CycleStart(0, 601000) == 600000;
    swept := server.Sweep(601000);
    assert ["r1"][..0] == [];
    log := server.rooms["r1"].messages;
  }

  /**
   * The disconnect handler tests `socket.roomId && socket.username` for
   * truthiness, so a member who joined under the empty name is never
   * removed again and the room never becomes empty.
   */
  method EmptyNameStays() returns (members: seq<string>, effects: seq<Effect>)
    ensures members == [""]
    ensures effects == []
  {
    var server := new Server();
    server.CreateRoom("r1", 0);
    var conn := new Connection();
    var _ := server.JoinRoom(conn, "r1", "", 0);
    effects := server.Disconnect(conn);
    members := server.rooms["r1"].users;
  }
}
