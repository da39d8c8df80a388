/**
 * The server's in-memory room engine: the store of active rooms, the
 * message-expiry filter, the socket event handlers and the periodic sweep.
 * Clock readings and fresh identifiers are parameters; what the handlers
 * emit is returned as a list of effects.
 */
module RoomServer {
  import opened Wrappers
  import opened OrderedSet
  import opened Cycle
  import opened Protocol

  /** A room: its creation time, its members (a Set) and its message log. */
  datatype Room = Room(createdAt: int, users: seq<string>, messages: seq<Message>)

  /** The filter of cleanExpiredMessages: the messages stamped at or after `boundary`, in order. */
  function KeepCurrent(messages: seq<Message>, boundary: int): (kept: seq<Message>)
    ensures |kept| <= |messages|
  {
    if messages == [] then []
    else
      var rest := KeepCurrent(messages[1..], boundary);
      if boundary <= messages[0].timestamp then [messages[0]] + rest else rest
  }

  /** A message survives the filter iff it was in the log and is stamped at or after the boundary. */
  lemma {:induction false} KeepCurrentExactly(messages: seq<Message>, boundary: int, m: Message)
    ensures m in KeepCurrent(messages, boundary) <==> m in messages && boundary <= m.timestamp
  {
    if messages != [] {
      KeepCurrentExactly(messages[1..], boundary, m);
      assert m in messages <==> m == messages[0] || m in messages[1..];
    }
  }

  /** The filter works element by element: it distributes over concatenation. */
  lemma {:induction false} KeepCurrentConcat(a: seq<Message>, b: seq<Message>, boundary: int)
    ensures KeepCurrent(a + b, boundary) == KeepCurrent(a, boundary) + KeepCurrent(b, boundary)
  {
    if a == [] {
      assert a + b == b;
    } else {
      assert (a + b)[1..] == a[1..] + b;
      KeepCurrentConcat(a[1..], b, boundary);
    }
  }

  /** A log whose messages are all current passes the filter unchanged. */
  lemma {:induction false} KeepCurrentAllCurrent(messages: seq<Message>, boundary: int)
    requires forall i :: 0 <= i < |messages| ==> boundary <= messages[i].timestamp
    ensures KeepCurrent(messages, boundary) == messages
  {
    if messages != [] {
      KeepCurrentAllCurrent(messages[1..], boundary);
    }
  }

  /** Filtering twice with one boundary is filtering once. */
  lemma KeepCurrentIdempotent(messages: seq<Message>, boundary: int)
    ensures KeepCurrent(KeepCurrent(messages, boundary), boundary) == KeepCurrent(messages, boundary)
  {
    var kept := KeepCurrent(messages, boundary);
    forall i | 0 <= i < |kept| ensures boundary <= kept[i].timestamp {
      KeepCurrentExactly(messages, boundary, kept[i]);
    }
    KeepCurrentAllCurrent(kept, boundary);
  }

  /** The room after cleanExpiredMessages at time `now`. */
  function Prune(room: Room, now: int): (pruned: Room)
    ensures pruned.createdAt == room.createdAt && pruned.users == room.users
    ensures |pruned.messages| <= |room.messages|
  {
    room.(messages := KeepCurrent(room.messages, CycleStart(room.createdAt, now)))
  }

  /** Cleaning a room keeps exactly the messages of the current cycle. */
  lemma PruneKeepsCurrentCycle(room: Room, now: int)
    ensures forall m :: m in Prune(room, now).messages <==>
              m in room.messages && CycleStart(room.createdAt, now) <= m.timestamp
  {
    forall m {
      KeepCurrentExactly(room.messages, CycleStart(room.createdAt, now), m);
    }
  }

  /** Two clean-ups at the same time leave the room as one does. */
  lemma PruneIdempotent(room: Room, now: int)
    ensures Prune(Prune(room, now), now) == Prune(room, now)
  {
    KeepCurrentIdempotent(room.messages, CycleStart(room.createdAt, now));
  }

  /**
   * Expiry is per window, not per message: a message sent 599 seconds after
   * the room was created is still there a millisecond before the ten-minute
   * mark and gone a millisecond after it.
   */
  lemma SynchronizedClear(room: Room, m: Message)
    requires m in room.messages && m.timestamp == room.createdAt + 599000
    ensures m in Prune(room, room.createdAt + 599999).messages
    ensures m !in Prune(room, room.createdAt + 600001).messages
  {
    CycleStartUnique(room.createdAt, room.createdAt + 599999, room.createdAt);
    CycleStartUnique(room.createdAt, room.createdAt + 600001, room.createdAt + MessageExpiry);
    PruneKeepsCurrentCycle(room, room.createdAt + 599999);
    PruneKeepsCurrentCycle(room, room.createdAt + 600001);
  }

  /**
   * A join appends the name to the members and a disconnect deletes it, so
   * a join followed by the same connection's disconnect gives the room back
   * the member list it had, in the same order.
   */
  lemma JoinThenLeaveRestoresMembers(users: seq<string>, username: string)
    requires username !in users
    ensures Remove(users + [username], username) == users
  {
    RemoveConcat(users, [username], username);
    assert Remove([username], username) == [];
    assert users + [] == users;
  }

  /** The `messages_cleared` announcement of the sweep for one room, if any. */
  function ClearedAnnouncement(roomId: string, rooms: map<string, Room>, now: int): (effects: seq<Effect>)
    ensures |effects| <= 1
    ensures effects != [] <==> roomId in rooms && CycleStart(rooms[roomId].createdAt, now) != 0
    ensures effects != [] ==> effects[0] == Emit(ToRoom(roomId), MessagesCleared(CycleStart(rooms[roomId].createdAt, now)))
  {
    if roomId in rooms && CycleStart(rooms[roomId].createdAt, now) != 0 then
      [Emit(ToRoom(roomId), MessagesCleared(CycleStart(rooms[roomId].createdAt, now)))]
    else []
  }

  /** The announcements of a sweep over the rooms `ids`, in that order. */
  function SweepEffects(ids: seq<string>, rooms: map<string, Room>, now: int): (effects: seq<Effect>)
    ensures |effects| <= |ids|
  {
    if ids == [] then []
    else SweepEffects(ids[..|ids| - 1], rooms, now) + ClearedAnnouncement(ids[|ids| - 1], rooms, now)
  }

  /**
   * A sweep announces exactly the swept rooms that exist and whose boundary
   * is truthy (not 0), each with its current boundary, and nothing else.
   */
  lemma {:induction false} SweepEffectsExactly(ids: seq<string>, rooms: map<string, Room>, now: int, e: Effect)
    ensures e in SweepEffects(ids, rooms, now) <==>
              exists k :: 0 <= k < |ids| && ClearedAnnouncement(ids[k], rooms, now) == [e]
  {
    if ids != [] {
      var init, last := ids[..|ids| - 1], ids[|ids| - 1];
      SweepEffectsExactly(init, rooms, now, e);
      if e in SweepEffects(ids, rooms, now) {
        if e in SweepEffects(init, rooms, now) {
          var k :| 0 <= k < |init| && ClearedAnnouncement(init[k], rooms, now) == [e];
          assert ids[k] == init[k];
        } else {
          assert ClearedAnnouncement(last, rooms, now) == [e];
        }
      } else {
        forall k | 0 <= k < |ids| ensures ClearedAnnouncement(ids[k], rooms, now) != [e] {
          if k < |init| {
            assert ids[k] == init[k];
          }
        }
      }
    }
  }

  /** The store after the sweep has cleaned the rooms `ids` at `now`, one after the other. */
  function SweptRooms(rooms: map<string, Room>, ids: seq<string>, now: int): (swept: map<string, Room>)
    ensures swept.Keys == rooms.Keys
    ensures forall id :: id in rooms ==>
              swept[id].createdAt == rooms[id].createdAt && swept[id].users == rooms[id].users
  {
    if ids == [] then rooms
    else
      var before := SweptRooms(rooms, ids[..|ids| - 1], now);
      var roomId := ids[|ids| - 1];
      if roomId in before then before[roomId := Prune(before[roomId], now)] else before
  }

  /** A sweep over distinct ids cleans each listed room once and leaves the others alone. */
  lemma {:induction false} SweptRoomsExactly(rooms: map<string, Room>, ids: seq<string>, now: int)
    requires forall i, j :: 0 <= i < j < |ids| ==> ids[i] != ids[j]
    ensures forall id :: id in rooms ==>
              SweptRooms(rooms, ids, now)[id] == if id in ids then Prune(rooms[id], now) else rooms[id]
  {
    if ids != [] {
      var init := ids[..|ids| - 1];
      SweptRoomsExactly(rooms, init, now);
      assert forall id :: id in ids <==> id in init || id == ids[|ids| - 1];
      assert ids[|ids| - 1] !in init;
    }
  }

  /** A sweep over every stored room leaves only messages of each room's current cycle. */
  lemma SweptRoomsAllCurrent(rooms: map<string, Room>, ids: seq<string>, now: int)
    requires forall i, j :: 0 <= i < j < |ids| ==> ids[i] != ids[j]
    requires forall id :: id in rooms ==> id in ids
    ensures forall id :: id in rooms ==> SweptRooms(rooms, ids, now)[id] == Prune(rooms[id], now)
    ensures forall id :: id in rooms ==>
              forall m :: m in SweptRooms(rooms, ids, now)[id].messages ==>
                CycleStart(rooms[id].createdAt, now) <= m.timestamp
  {
    SweptRoomsExactly(rooms, ids, now);
    forall id | id in rooms {
      PruneKeepsCurrentCycle(rooms[id], now);
    }
  }

  /** Cleaning rooms changes no creation time, so no announcement of the sweep depends on earlier steps. */
  lemma AnnouncementUnchangedBySweep(rooms: map<string, Room>, ids: seq<string>, roomId: string, now: int)
    ensures ClearedAnnouncement(roomId, SweptRooms(rooms, ids, now), now) == ClearedAnnouncement(roomId, rooms, now)
  {
  }

  /** One more id in the sweep: one more announcement and one more room cleaned. */
  lemma SweepStep(rooms: map<string, Room>, ids: seq<string>, i: nat, now: int)
    requires i < |ids|
    ensures SweepEffects(ids[..i + 1], rooms, now) == SweepEffects(ids[..i], rooms, now) + ClearedAnnouncement(ids[i], rooms, now)
    ensures SweptRooms(rooms, ids[..i + 1], now) ==
              var r := SweptRooms(rooms, ids[..i], now);
              if ids[i] in r then r[ids[i] := Prune(r[ids[i]], now)] else r
  {
    assert ids[..i + 1][..i] == ids[..i];
  }

  /** Storing twice under one key keeps only the second value. */
  lemma StoreTwice(rooms: map<string, Room>, roomId: string, first: Room, second: Room)
    ensures rooms[roomId := first][roomId := second] == rooms[roomId := second]
  {
  }

  /** Truthiness of an optional string in JavaScript: present and not empty. */
  predicate Truthy(s: Option<string>)
  {
    s.Some? && s.value != ""
  }

  /** One socket connection and what it is bound to (`socket.username`, `socket.roomId`). */
  class Connection {
    var username: Option<string>
    var roomId: Option<string>

    constructor ()
      ensures username == None && roomId == None
    {
      username, roomId := None, None;
    }
  }

  /** `activeRooms`: a Map from room id to room, with the Map's insertion order of keys. */
  class Server {
    var rooms: map<string, Room>
    var order: seq<string>

    ghost predicate Valid()
      reads this
    {
      && Distinct(order)
      && (forall id :: id in order <==> id in rooms)
      && (forall id :: id in rooms ==> Distinct(rooms[id].users))
    }

    constructor ()
      ensures Valid() && rooms == map[] && order == []
    {
      rooms, order := map[], [];
    }

    /**
     * cleanExpiredMessages: on a known room, drops the messages from before
     * the current cycle and returns that cycle's start; on an unknown room
     * returns null and changes nothing.
     */
    method CleanExpiredMessages(roomId: string, now: int) returns (cycleStart: Option<int>)
      modifies this
      ensures old(Valid()) ==> Valid()
      ensures order == old(order)
      ensures roomId !in old(rooms) ==> cycleStart == None && rooms == old(rooms)
      ensures roomId in old(rooms) ==>
                && cycleStart == Some(CycleStart(old(rooms)[roomId].createdAt, now))
                && rooms == old(rooms)[roomId := Prune(old(rooms)[roomId], now)]
    {
      if roomId in rooms {
        var room := rooms[roomId];
        var start := CycleStart(room.createdAt, now);
        rooms := rooms[roomId := room.(messages := KeepCurrent(room.messages, start))];
        cycleStart := Some(start);
      } else {
        cycleStart := None;
      }
    }

    /**
     * POST /api/rooms: stores an empty room created now under `roomId` (a
     * fresh uuid).  `Map.set` on a present key would replace the room and
     * keep its place in the key order.
     */
    method CreateRoom(roomId: string, now: int)
      requires Valid()
      modifies this
      ensures Valid()
      ensures rooms == old(rooms)[roomId := Room(now, [], [])]
      ensures order == Add(old(order), roomId)
    {
      rooms := rooms[roomId := Room(now, [], [])];
      order := Add(order, roomId);
    }

    /**
     * check_username: the name is available iff the room exists and no
     * member holds it; an unavailable answer says why.
     */
    method CheckUsername(roomId: string, username: string) returns (effects: seq<Effect>)
      ensures |effects| == 1 && effects[0].Emit? && effects[0].scope == ToSender
      ensures effects[0].event.UsernameChecked?
      ensures effects[0].event.isAvailable <==> roomId in rooms && username !in rooms[roomId].users
      ensures roomId !in rooms ==> effects[0].event.error == Some(RoomNotFound)
      ensures roomId in rooms && username in rooms[roomId].users ==> effects[0].event.error == Some(UsernameTaken)
      ensures effects[0].event.isAvailable ==> effects[0].event.error == None
    {
      if roomId !in rooms {
        return [Emit(ToSender, UsernameChecked(false, Some(RoomNotFound)))];
      }
      var isAvailable := username !in rooms[roomId].users;
      effects := [Emit(ToSender, UsernameChecked(isAvailable, if isAvailable then None else Some(UsernameTaken)))];
    }

    /**
     * join_room: rejects an unknown room or a taken name with an error to
     * the sender and no change; otherwise binds the connection, adds the
     * name to the members, cleans the log, sends the current log and cycle
     * to the joiner and the new member list to the whole room.
     */
    method JoinRoom(conn: Connection, roomId: string, username: string, now: int) returns (effects: seq<Effect>)
      requires Valid()
      modifies this, conn
      ensures Valid() && order == old(order)
      ensures roomId !in old(rooms) ==>
                effects == [Emit(ToSender, Error(RoomNotFound))] && unchanged(this) && unchanged(conn)
      ensures roomId in old(rooms) && username in old(rooms)[roomId].users ==>
                effects == [Emit(ToSender, Error(UsernameTaken))] && unchanged(this) && unchanged(conn)
      ensures roomId in old(rooms) && username !in old(rooms)[roomId].users ==>
                var before := old(rooms)[roomId];
                var after := Prune(before.(users := before.users + [username]), now);
                var start := CycleStart(before.createdAt, now);
                && rooms == old(rooms)[roomId := after]
                && |after.users| == |before.users| + 1
                && conn.username == Some(username) && conn.roomId == Some(roomId)
                && (forall m :: m in after.messages ==> start <= m.timestamp)
                && effects == [ Subscribe(roomId),
                                Emit(ToSender, RoomJoined(after.messages, before.createdAt, start)),
                                Emit(ToRoom(roomId), UserJoined(username, after.users)) ]
    {
      if roomId !in rooms {
        return [Emit(ToSender, Error(RoomNotFound))];
      }
      var room := rooms[roomId];
      if username in room.users {
        return [Emit(ToSender, Error(UsernameTaken))];
      }
      conn.username := Some(username);
      conn.roomId := Some(roomId);
      rooms := rooms[roomId := room.(users := room.users + [username])];
      var cycleStart := CleanExpiredMessages(roomId, now);
      PruneKeepsCurrentCycle(room.(users := room.users + [username]), now);
      room := rooms[roomId];
      effects := [ Subscribe(roomId),
                   Emit(ToSender, RoomJoined(room.messages, room.createdAt, cycleStart.value)),
                   Emit(ToRoom(roomId), UserJoined(username, room.users)) ];
    }

    /** typing: relayed to the rest of the room as given, with no checks and no state. */
    method Typing(roomId: string, username: string) returns (effects: seq<Effect>)
      ensures effects == [Emit(ToOthersInRoom(roomId), UserTyping(username))]
    {
      effects := [Emit(ToOthersInRoom(roomId), UserTyping(username))];
    }

    /** stop_typing: relayed to the rest of the room as given, with no checks and no state. */
    method StopTyping(roomId: string, username: string) returns (effects: seq<Effect>)
      ensures effects == [Emit(ToOthersInRoom(roomId), UserStoppedTyping(username))]
    {
      effects := [Emit(ToOthersInRoom(roomId), UserStoppedTyping(username))];
    }

    /**
     * send_message: on an unknown room, an error to the sender and no
     * change.  Otherwise the message, stamped `stampedAt` and carrying the
     * connection's bound name (absent if it never joined), goes after the
     * cleaned log and to the whole room.  The source reads the clock twice:
     * `stampedAt` for the timestamp, then `now` inside the clean-up.
     */
    method SendMessage(conn: Connection, roomId: string, text: string, id: string, stampedAt: int, now: int)
      returns (effects: seq<Effect>)
      requires Valid()
      modifies this
      ensures Valid() && order == old(order)
      ensures roomId !in old(rooms) ==>
                effects == [Emit(ToSender, Error(RoomNotFound))] && unchanged(this)
      ensures roomId in old(rooms) ==>
                var msg := Message(id, conn.username, text, stampedAt);
                var pruned := Prune(old(rooms)[roomId], now);
                && rooms == old(rooms)[roomId := pruned.(messages := pruned.messages + [msg])]
                && effects == [Emit(ToRoom(roomId), ReceiveMessage(msg))]
    {
      if roomId !in rooms {
        return [Emit(ToSender, Error(RoomNotFound))];
      }
      var messageData := Message(id, conn.username, text, stampedAt);
      var _ := CleanExpiredMessages(roomId, now);
      var room := rooms[roomId];
      StoreTwice(old(rooms), roomId, room, room.(messages := room.messages + [messageData]));
      rooms := rooms[roomId := room.(messages := room.messages + [messageData])];
      effects := [Emit(ToRoom(roomId), ReceiveMessage(messageData))];
    }

    /**
     * disconnect: a connection bound to a truthy room id and name that is
     * still in the store loses that name from the room's members; the room
     * hears the new member list, and an emptied room gets its deletion
     * scheduled one expiry window later.  Anything else changes nothing.
     */
    method Disconnect(conn: Connection) returns (effects: seq<Effect>)
      requires Valid()
      modifies this
      ensures Valid() && order == old(order)
      ensures !(Truthy(conn.roomId) && Truthy(conn.username) && conn.roomId.value in old(rooms)) ==>
                effects == [] && unchanged(this)
      ensures Truthy(conn.roomId) && Truthy(conn.username) && conn.roomId.value in old(rooms) ==>
                var roomId, username := conn.roomId.value, conn.username.value;
                var before := old(rooms)[roomId];
                var after := before.(users := Remove(before.users, username));
                && rooms == old(rooms)[roomId := after]
                && username !in after.users
                && (forall u :: u != username ==> (u in after.users <==> u in before.users))
                && (username in before.users ==> |after.users| == |before.users| - 1)
                && effects == [Emit(ToRoom(roomId), UserLeft(username, after.users))]
                              + (if after.users == [] then [ScheduleCleanup(roomId, MessageExpiry)] else [])
    {
      effects := [];
      if Truthy(conn.roomId) && Truthy(conn.username) {
        var roomId, username := conn.roomId.value, conn.username.value;
        if roomId in rooms {
          var room := rooms[roomId];
          room := room.(users := Remove(room.users, username));
          rooms := rooms[roomId := room];
          effects := [Emit(ToRoom(roomId), UserLeft(username, room.users))];
          if |room.users| == 0 {
            effects := effects + [ScheduleCleanup(roomId, MessageExpiry)];
          }
        }
      }
    }

    /**
     * The delayed deletion scheduled by disconnect: the room goes only if it
     * is still in the store and still has no members.
     */
    method DeleteIfEmpty(roomId: string)
      requires Valid()
      modifies this
      ensures Valid()
      ensures roomId in old(rooms) && old(rooms)[roomId].users == [] ==>
                rooms == old(rooms) - {roomId} && order == Remove(old(order), roomId)
      ensures !(roomId in old(rooms) && old(rooms)[roomId].users == []) ==> unchanged(this)
    {
      if roomId in rooms && |rooms[roomId].users| == 0 {
        rooms := rooms - {roomId};
        order := Remove(order, roomId);
      }
    }

    /**
     * One step of the periodic sweep: the room is cleaned at `now` and, if
     * the returned boundary is truthy, hears `messages_cleared`.
     */
    method SweepRoom(roomId: string, now: int) returns (announcement: seq<Effect>)
      modifies this
      ensures order == old(order)
      ensures rooms == if roomId in old(rooms) then old(rooms)[roomId := Prune(old(rooms)[roomId], now)] else old(rooms)
      ensures announcement == ClearedAnnouncement(roomId, old(rooms), now)
    {
      var cycleStart := CleanExpiredMessages(roomId, now);
      announcement := [];
      if cycleStart.Some? && cycleStart.value != 0 {
        announcement := [Emit(ToRoom(roomId), MessagesCleared(cycleStart.value))];
      }
    }

    /**
     * The periodic sweep: every room, in the store's key order, is cleaned
     * at `now`, and each whose boundary is truthy hears `messages_cleared`.
     */
    method Sweep(now: int) returns (effects: seq<Effect>)
      requires Valid()
      modifies this
      ensures Valid() && order == old(order) && rooms.Keys == old(rooms).Keys
      ensures forall id :: id in rooms ==> rooms[id] == Prune(old(rooms)[id], now)
      ensures forall id :: id in rooms ==>
                forall m :: m in rooms[id].messages ==> CycleStart(rooms[id].createdAt, now) <= m.timestamp
      ensures effects == SweepEffects(order, old(rooms), now)
    {
      effects := [];
      for i := 0 to |order|
        invariant order == old(order)
        invariant rooms == SweptRooms(old(rooms), order[..i], now)
        invariant effects == SweepEffects(order[..i], old(rooms), now)
      {
        var roomId := order[i];
        SweepStep(old(rooms), order, i, now);
        AnnouncementUnchangedBySweep(old(rooms), order[..i], roomId, now);
        var announcement := SweepRoom(roomId, now);
        effects := effects + announcement;
      }
      assert order[..|order|] == order;
      SweptRoomsAllCurrent(old(rooms), order, now);
    }
  }
}
