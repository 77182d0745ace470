/**
 * The room coordinator of the socket server: the process-wide room store,
 * each connection's `joinedRoom`, and the six socket handlers. Each handler
 * runs to completion before the next (the event loop serialises them) and
 * returns the messages it emits.
 */
module Server {
  import opened Rules
  import opened Text
  import opened Rooms

  /** A message goes either to the sender alone or to every connection joined to the room. */
  datatype Audience = ToSender(id: Id) | ToRoom(code: Code)

  datatype Event = Event(audience: Audience, payload: Payload)

  const CodeRequired := "Room code required."

  const RoomFull := "Room is full (2 players max)."

  /**
   * Every stored room is well formed and has a player (a room is deleted
   * when it empties), and every connection's `joinedRoom` names a stored
   * room of which that connection is a player.
   */
  ghost predicate StoreValid(rooms: map<Code, Room>, joined: map<Id, Code>)
  {
    RoomsValid(rooms) && SeatsValid(rooms, joined)
  }

  ghost predicate RoomsValid(rooms: map<Code, Room>)
  {
    forall c :: c in rooms ==> WellFormed(rooms[c]) && rooms[c].players != []
  }

  ghost predicate SeatsValid(rooms: map<Code, Room>, joined: map<Id, Code>)
  {
    forall s :: s in joined ==> joined[s] in rooms && s in Ids(rooms[joined[s]].players)
  }

  /** Replacing a room by a well-formed, non-empty one that keeps all its players keeps the store valid. */
  lemma ReplaceRoom(rooms: map<Code, Room>, joined: map<Id, Code>, code: Code, room: Room)
    requires StoreValid(rooms, joined) && code in rooms
    requires WellFormed(room) && room.players != []
    requires forall q :: q in Ids(rooms[code].players) ==> q in Ids(room.players)
    ensures StoreValid(rooms[code := room], joined)
  {
    var rooms' := rooms[code := room];
    assert RoomsValid(rooms');
    forall s | s in joined
      ensures joined[s] in rooms' && s in Ids(rooms'[joined[s]].players)
    {
      if joined[s] == code {
        assert s in Ids(rooms[code].players);
      }
    }
  }

  /** A successful join stores a room that holds the joiner and every earlier player. */
  lemma JoinKeepsValid(rooms: map<Code, Room>, joined: map<Id, Code>, code: Code, id: Id, room: Room)
    requires StoreValid(rooms, joined)
    requires WellFormed(room) && id in Ids(room.players)
    requires code in rooms ==> forall q :: q in Ids(rooms[code].players) ==> q in Ids(room.players)
    ensures StoreValid(rooms[code := room], joined[id := code])
  {
    var rooms', joined' := rooms[code := room], joined[id := code];
    assert RoomsValid(rooms') by {
      assert room.players != [];
    }
    assert SeatsValid(rooms', joined') by {
      forall s | s in joined'
        ensures joined'[s] in rooms' && s in Ids(rooms'[joined'[s]].players)
      {
        if s != id && joined[s] == code {
          assert s in Ids(rooms[code].players);
        }
      }
    }
  }

  /** What a departure stores in place of the room: what is left of it, or nothing once it is empty. */
  function AfterDeparture(rooms: map<Code, Room>, code: Code, room: Room): (r: map<Code, Room>)
    ensures code in r <==> room.players != []
    ensures code in r ==> r[code] == room
    ensures forall c :: c in rooms && c != code ==> c in r && r[c] == rooms[c]
    ensures forall c :: c in r ==> c in rooms || c == code
  {
    if room.players == [] then rooms - {code} else rooms[code := room]
  }

  lemma DepartKeepsValid(rooms: map<Code, Room>, joined: map<Id, Code>, id: Id)
    requires StoreValid(rooms, joined) && id in joined
    ensures StoreValid(AfterDeparture(rooms, joined[id], Depart(rooms[joined[id]], id)), joined - {id})
  {
    DepartKeepsRooms(rooms, joined[id], id);
    DepartKeepsSeats(rooms, joined, id);
  }

  lemma DepartKeepsRooms(rooms: map<Code, Room>, code: Code, id: Id)
    requires RoomsValid(rooms) && code in rooms
    ensures RoomsValid(AfterDeparture(rooms, code, Depart(rooms[code], id)))
  {
    var room := Depart(rooms[code], id);
    var rooms' := AfterDeparture(rooms, code, room);
    DepartWellFormed(rooms[code], id);
    forall c | c in rooms' ensures WellFormed(rooms'[c]) && rooms'[c].players != [] {
      if c != code {
        assert rooms'[c] == rooms[c];
      }
    }
  }

  lemma DepartKeepsSeats(rooms: map<Code, Room>, joined: map<Id, Code>, id: Id)
    requires StoreValid(rooms, joined) && id in joined
    ensures SeatsValid(AfterDeparture(rooms, joined[id], Depart(rooms[joined[id]], id)), joined - {id})
  {
    var code := joined[id];
    var room := Depart(rooms[code], id);
    var rooms' := AfterDeparture(rooms, code, room);
    DepartLeavesOthers(rooms[code], id);
    forall s | s in joined - {id}
      ensures joined[s] in rooms' && s in Ids(rooms'[joined[s]].players)
    {
      if joined[s] == code {
        assert Lookup(room.players, s) == Lookup(rooms[code].players, s);
      }
    }
  }

  class RoomServer {
    /** `rooms`: room code to room. */
    var rooms: map<Code, Room>
    /** The `joinedRoom` variable of every connection that has one. */
    var joined: map<Id, Code>

    /**
     * Every stored room is well formed and has a player (a room is deleted
     * when it empties), and every connection's `joinedRoom` names a stored
     * room of which that connection is a player.
     */
    ghost predicate Valid()
      reads this
      ensures Valid() ==> forall c :: c in rooms ==> 1 <= |rooms[c].players| <= 2
    {
      StoreValid(rooms, joined)
    }

    constructor ()
      ensures Valid()
      ensures rooms == map[] && joined == map[]
    {
      rooms := map[];
      joined := map[];
    }

    /** `join_room { roomCode, name }`. */
    method JoinRoom(id: Id, roomCode: string, name: string) returns (events: seq<Event>)
      requires Valid()
      modifies this
      ensures Valid()
      ensures NormalizeCode(roomCode) == [] ==>
        && rooms == old(rooms) && joined == old(joined)
        && events == [Event(ToSender(id), ErrorMsg(CodeRequired))]
      ensures var code := NormalizeCode(roomCode);
        code != [] && code in old(rooms) && |old(rooms)[code].players| >= 2 ==>
        && rooms == old(rooms) && joined == old(joined)
        && events == [Event(ToSender(id), ErrorMsg(RoomFull))]
      ensures var code := NormalizeCode(roomCode);
        code != [] && (code in old(rooms) ==> |old(rooms)[code].players| < 2) ==>
        var room := Admit(if code in old(rooms) then old(rooms)[code] else EmptyRoom, id, name);
        && joined == old(joined)[id := code]
        && rooms == old(rooms)[code := room]
        && events == [Event(ToRoom(code), RoomState(RoomSnapshot(room)))]
    {
      var code := NormalizeCode(roomCode);
      if code == [] {
        events := [Event(ToSender(id), ErrorMsg(CodeRequired))];
        return;
      }
      // create/get room: a room created here is empty, hence never full, and
      // is stored below together with its first player
      var room := if code in rooms then rooms[code] else EmptyRoom;
      if |room.players| >= 2 {
        events := [Event(ToSender(id), ErrorMsg(RoomFull))];
        return;
      }
      events := Seat(id, code, room, name);
    }

    /** The second half of `join_room`: the player takes a seat in a room that has one free. */
    method Seat(id: Id, code: Code, room: Room, name: string) returns (events: seq<Event>)
      requires Valid()
      requires room == (if code in rooms then rooms[code] else EmptyRoom) && |room.players| < 2
      modifies this
      ensures Valid()
      ensures joined == old(joined)[id := code]
      ensures rooms == old(rooms)[code := Admit(room, id, name)]
      ensures events == [Event(ToRoom(code), RoomState(RoomSnapshot(Admit(room, id, name))))]
    {
      // the player is (re)seated not ready; an existing score entry is kept
      var players := Put(room.players, id, Player(NameOrDefault(name), false));
      var score := if id in room.score then room.score else room.score[id := Zero];
      var admitted := Room(players, room.moves, score);
      assert admitted == Admit(room, id, name);
      assert StoreValid(rooms[code := admitted], joined[id := code]) by {
        AdmitSpec(room, id, name);
        JoinKeepsValid(rooms, joined, code, id, admitted);
      }
      rooms, joined := rooms[code := admitted], joined[id := code];
      events := [Event(ToRoom(code), RoomState(RoomSnapshot(admitted)))];
    }

    /** Writes back a room that still holds all its players. */
    method Store(code: Code, room: Room)
      requires Valid() && code in rooms
      requires WellFormed(room) && room.players != []
      requires forall q :: q in Ids(rooms[code].players) ==> q in Ids(room.players)
      modifies this
      ensures Valid()
      ensures rooms == old(rooms)[code := room] && joined == old(joined)
    {
      ReplaceRoom(rooms, joined, code, room);
      rooms := rooms[code := room];
    }

    /** `rename(newName)`. */
    method Rename(id: Id, newName: string) returns (events: seq<Event>)
      requires Valid()
      modifies this
      ensures Valid()
      ensures joined == old(joined)
      ensures id in old(joined) && old(joined)[id] in old(rooms) && id in Ids(old(rooms)[old(joined)[id]].players) ==>
        var code := old(joined)[id];
        var room := RenamePlayer(old(rooms)[code], id, newName);
        && rooms == old(rooms)[code := room]
        && events == [Event(ToRoom(code), RoomState(RoomSnapshot(room)))]
      ensures !(id in old(joined) && old(joined)[id] in old(rooms) && id in Ids(old(rooms)[old(joined)[id]].players)) ==>
        rooms == old(rooms) && events == []
    {
      if id !in joined || joined[id] !in rooms || Lookup(rooms[joined[id]].players, id).None? {
        return [];
      }
      var code := joined[id];
      var room := rooms[code];
      RenameSpec(room, id, newName);
      var p := Lookup(room.players, id).value;
      room := Room(Put(room.players, id, p.(name := Truncate(NameOrDefault(newName)))), room.moves, room.score);
      Store(code, room);
      events := [Event(ToRoom(code), RoomState(RoomSnapshot(room)))];
    }

    /** `player_ready()`. */
    method PlayerReady(id: Id) returns (events: seq<Event>)
      requires Valid()
      modifies this
      ensures Valid()
      ensures joined == old(joined)
      ensures id in old(joined) && old(joined)[id] in old(rooms) && id in Ids(old(rooms)[old(joined)[id]].players) ==>
        var code := old(joined)[id];
        var room := MarkReady(old(rooms)[code], id);
        && rooms == old(rooms)[code := room]
        && events == [Event(ToRoom(code), RoomState(RoomSnapshot(room)))]
      ensures !(id in old(joined) && old(joined)[id] in old(rooms) && id in Ids(old(rooms)[old(joined)[id]].players)) ==>
        rooms == old(rooms) && events == []
    {
      if id !in joined || joined[id] !in rooms || Lookup(rooms[joined[id]].players, id).None? {
        return [];
      }
      var code := joined[id];
      var room := rooms[code];
      MarkReadySpec(room, id);
      var p := Lookup(room.players, id).value;
      room := Room(Put(room.players, id, p.(ready := true)), room.moves, room.score);
      Store(code, room);
      events := [Event(ToRoom(code), RoomState(RoomSnapshot(room)))];
    }

    /**
     * `make_move(choice)`. There is no membership or readiness check: Valid
     * guarantees that a connection with a `joinedRoom` is a player there.
     */
    method MakeMove(id: Id, choice: string) returns (events: seq<Event>)
      requires Valid()
      modifies this
      ensures Valid()
      ensures joined == old(joined)
      ensures id in old(joined) && old(joined)[id] in old(rooms) && ParseChoice(choice).Some? ==>
        var code := old(joined)[id];
        id in Ids(old(rooms)[code].players) &&
        var s := Submit(old(rooms)[code], id, ParseChoice(choice).value);
        && rooms == old(rooms)[code := s.room]
        && events == [Event(ToRoom(code), s.payload)]
      ensures !(id in old(joined) && old(joined)[id] in old(rooms) && ParseChoice(choice).Some?) ==>
        rooms == old(rooms) && events == []
    {
      if id !in joined || joined[id] !in rooms {
        return [];
      }
      var code := joined[id];
      var room := rooms[code];
      var valid := ParseChoice(choice);
      if valid.None? {
        return [];
      }
      var s := RecordMove(room, id, valid.value);
      SubmitKeepsPlayers(room, id, valid.value);
      Store(code, s.room);
      events := [Event(ToRoom(code), s.payload)];
    }

    /** `reset_scores()`. */
    method ResetScores(id: Id) returns (events: seq<Event>)
      requires Valid()
      modifies this
      ensures Valid()
      ensures joined == old(joined)
      ensures id in old(joined) && old(joined)[id] in old(rooms) ==>
        var code := old(joined)[id];
        var room := Reset(old(rooms)[code]);
        && rooms == old(rooms)[code := room]
        && events == [Event(ToRoom(code), RoomState(RoomSnapshot(room)))]
      ensures !(id in old(joined) && old(joined)[id] in old(rooms)) ==>
        rooms == old(rooms) && events == []
    {
      if id !in joined || joined[id] !in rooms {
        return [];
      }
      var code := joined[id];
      var room := rooms[code];
      ResetSpec(room);
      var score := ZeroScores(room.score);
      var players := ClearReady(room.players);
      room := Room(players, map[], score);
      Store(code, room);
      events := [Event(ToRoom(code), RoomState(RoomSnapshot(room)))];
    }

    /**
     * `disconnect`. The connection ends with it, so its `joinedRoom` is
     * dropped too; socket ids are never reused.
     */
    method Disconnect(id: Id) returns (events: seq<Event>)
      requires Valid()
      modifies this
      ensures Valid()
      ensures id in old(joined) && old(joined)[id] in old(rooms) ==>
        var code := old(joined)[id];
        var room := Depart(old(rooms)[code], id);
        && joined == old(joined) - {id}
        && (room.players == [] ==> rooms == old(rooms) - {code} && events == [])
        && (room.players != [] ==>
              rooms == old(rooms)[code := room]
              && events == [Event(ToRoom(code), RoomState(RoomSnapshot(room)))])
      ensures !(id in old(joined) && old(joined)[id] in old(rooms)) ==>
        rooms == old(rooms) && joined == old(joined) && events == []
    {
      if id !in joined || joined[id] !in rooms {
        return [];
      }
      var code := joined[id];
      var room := rooms[code];
      DepartKeepsValid(rooms, joined, id);
      joined := joined - {id};
      room := Room(Delete(room.players, id), room.moves - {id}, room.score - {id});
      if |room.players| == 0 {
        rooms := rooms - {code};
        events := [];
      } else {
        rooms := rooms[code := room];
        events := [Event(ToRoom(code), RoomState(RoomSnapshot(room)))];
      }
    }
  }
}
