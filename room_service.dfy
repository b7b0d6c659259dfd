/** The room service: every operation loads a room by id, changes its songs,
    now-playing song or participants, and stores it back. The document store is
    the map `rooms`; `nextId` stands in for the ids the database mints. */
module RoomService {
  import opened Common
  import opened Model
  import Playlist
  import Roster

  /** What `addParticipant` resolves with for an existing room: the room as
      stored afterwards, whether the name was added, and the `{user}` record
      that was pushed (absent when the name was taken). */
  datatype JoinResult = JoinResult(room: Room, isUserAdded: bool, newUser: Option<string>)

  /** `addParticipant` on a loaded room, with `key` the `_id` minted for the
      new participant. */
  function JoinRoom(room: Room, user: string, key: ParticipantKey): (r: JoinResult)
    ensures r.isUserAdded <==> !Roster.HasUser(room.participants, user)
    ensures r.newUser.Some? <==> r.isUserAdded
    ensures r.newUser.Some? ==> r.newUser.value == user
    ensures r.room == room.(participants := Roster.Join(room.participants, user, key))
  {
    if Roster.HasUser(room.participants, user) then JoinResult(room, false, None)
    else JoinResult(room.(participants := Roster.Join(room.participants, user, key)), true, Some(user))
  }

  /** `removeParticipantFromAll` on the whole store: every room loses the
      participants whose `id` is `socketId`. */
  function SweepRooms(rooms: map<RoomId, Room>, socketId: string): (r: map<RoomId, Room>)
    ensures r.Keys == rooms.Keys
    ensures forall id :: id in r ==> !Roster.HasSocket(r[id].participants, socketId)
    ensures forall id :: id in rooms && !Roster.HasSocket(rooms[id].participants, socketId) ==> r[id] == rooms[id]
    ensures forall id :: id in r ==> r[id].songs == rooms[id].songs && r[id].nowPlaying == rooms[id].nowPlaying
    ensures forall id :: id in r ==>
      r[id] == rooms[id].(participants := Roster.RemoveSocket(rooms[id].participants, socketId))
  {
    map id | id in rooms :: rooms[id].(participants := Roster.RemoveSocket(rooms[id].participants, socketId))
  }

  /** A second sweep for the same connection changes nothing. */
  lemma SweepRoomsIdempotent(rooms: map<RoomId, Room>, socketId: string)
    ensures SweepRooms(SweepRooms(rooms, socketId), socketId) == SweepRooms(rooms, socketId)
  {
    var once := SweepRooms(rooms, socketId);
    var twice := SweepRooms(once, socketId);
    forall id | id in twice ensures twice[id] == once[id] {
      assert !Roster.HasSocket(once[id].participants, socketId);
    }
  }

  /** No participant in any room carries a connection `id`. Nothing in the
      service writes that field, so every store the service builds is of this
      kind. */
  predicate NoConnections(rooms: map<RoomId, Room>) {
    forall id, p :: id in rooms && p in rooms[id].participants ==> p.socketId == None
  }

  /** On a store without connection ids the disconnect sweep removes nobody. */
  lemma SweepWithoutConnections(rooms: map<RoomId, Room>, socketId: string)
    requires NoConnections(rooms)
    ensures SweepRooms(rooms, socketId) == rooms
  {
    forall id | id in rooms ensures !Roster.HasSocket(rooms[id].participants, socketId) {
      var ps := rooms[id].participants;
      forall i | 0 <= i < |ps| ensures ps[i].socketId != Some(socketId) {
        assert ps[i] in ps;
      }
    }
  }

  predicate KeysBelow(ps: seq<Participant>, bound: nat) {
    forall i :: 0 <= i < |ps| ==> ps[i].key < bound
  }

  /** Each room is stored under its own id, every id minted so far is below
      `nextId`, and no room lists two names that are equal ignoring case. */
  ghost predicate StoreInvariant(rooms: map<RoomId, Room>, nextId: nat) {
    forall id :: id in rooms ==>
      && id < nextId
      && rooms[id].id == id
      && KeysBelow(rooms[id].participants, nextId)
      && Roster.UniqueNames(rooms[id].participants)
  }

  /** A sweep that matches no room changes no room. */
  lemma SweepUnmatched(rooms: map<RoomId, Room>, socketId: string)
    requires forall id :: id in rooms ==> !Roster.HasSocket(rooms[id].participants, socketId)
    ensures SweepRooms(rooms, socketId) == rooms
  {
  }

  /** The sweep only removes participants, so it keeps the store invariant. */
  lemma SweepKeepsInvariant(rooms: map<RoomId, Room>, nextId: nat, socketId: string)
    requires StoreInvariant(rooms, nextId)
    ensures StoreInvariant(SweepRooms(rooms, socketId), nextId)
  {
    var r := SweepRooms(rooms, socketId);
    forall id | id in r
      ensures KeysBelow(r[id].participants, nextId) && Roster.UniqueNames(r[id].participants)
    {
      Roster.RemoveSocketKeepsNamesUnique(rooms[id].participants, socketId);
      forall i | 0 <= i < |r[id].participants| ensures r[id].participants[i].key < nextId {
        assert r[id].participants[i] in rooms[id].participants;
      }
    }
  }

  class RoomStore {
    var rooms: map<RoomId, Room>
    var nextId: nat

    /** The store invariant, over this store's fields. */
    ghost predicate Valid()
      reads this
    {
      StoreInvariant(rooms, nextId)
    }

    constructor ()
      ensures Valid() && NoConnections(rooms) && rooms == map[] && nextId == 0
    {
      rooms := map[];
      nextId := 0;
    }

    /** `createRoom`: a new room under a fresh id, holding only its host. */
    method CreateRoom(name: string, hostName: string) returns (room: Room)
      requires Valid()
      modifies this
      ensures Valid()
      ensures NoConnections(old(rooms)) ==> NoConnections(rooms)
      ensures room.id !in old(rooms) && rooms == old(rooms)[room.id := room]
      ensures room.name == name && room.songs == [] && room.nowPlaying == None
      ensures |room.participants| == 1
      ensures room.participants[0].user == hostName && room.participants[0].role == Host
    {
      var host := Participant(nextId + 1, hostName, Host, None);
      room := Room(nextId, name, [], None, [host]);
      rooms := rooms[nextId := room];
      nextId := nextId + 2;
    }

    /** `addParticipant`: null for a missing room; otherwise the join on the
        loaded room, stored back. */
    method AddParticipant(roomId: RoomId, user: string) returns (r: Option<JoinResult>)
      requires Valid()
      modifies this
      ensures Valid()
      ensures NoConnections(old(rooms)) ==> NoConnections(rooms)
      ensures roomId !in old(rooms) ==> r == None && rooms == old(rooms)
      ensures roomId in old(rooms) ==>
        && r == Some(JoinRoom(old(rooms)[roomId], user, old(nextId)))
        && rooms == old(rooms)[roomId := r.value.room]
    {
      if roomId !in rooms {
        return None;
      }
      var room := rooms[roomId];
      var alreadyExists := Roster.ContainsUser(room.participants, user);
      if !alreadyExists {
        Roster.JoinKeepsNamesUnique(room.participants, user, nextId);
        room := room.(participants := room.participants + [Participant(nextId, user, Unassigned, None)]);
        rooms := rooms[roomId := room];
        nextId := nextId + 1;
        r := Some(JoinResult(room, true, Some(user)));
      } else {
        r := Some(JoinResult(room, false, None));
      }
    }

    /** `removeParticipantFromAll`: returns early when no room holds the
        connection; otherwise pulls it from every room. */
    method RemoveParticipantFromAll(socketId: string)
      requires Valid()
      modifies this
      ensures Valid() && nextId == old(nextId)
      ensures rooms == SweepRooms(old(rooms), socketId)
    {
      var matched := exists id | id in rooms :: Roster.HasSocket(rooms[id].participants, socketId);
      if !matched {
        SweepUnmatched(rooms, socketId);
        return;
      }
      SweepKeepsInvariant(rooms, nextId, socketId);
      ghost var start := rooms;
      ghost var target := SweepRooms(start, socketId);
      var pending := rooms.Keys;
      while pending != {}
        invariant pending <= start.Keys && rooms.Keys == start.Keys && nextId == old(nextId)
        invariant forall id :: id in rooms ==> rooms[id] == if id in pending then start[id] else target[id]
        decreases pending
      {
        var id :| id in pending;
        rooms := rooms[id := rooms[id].(participants := Roster.RemoveSocket(rooms[id].participants, socketId))];
        pending := pending - {id};
      }
      assert rooms.Keys == target.Keys;
      assert forall id :: id in rooms ==> rooms[id] == target[id];
      assert rooms == target;
    }

    /** `addSong`: null for a missing room; otherwise the song is appended
        unless its title is already listed, and the playlist is returned. */
    method AddSong(roomId: RoomId, song: Song) returns (r: Option<seq<Song>>)
      requires Valid()
      modifies this
      ensures Valid() && nextId == old(nextId)
      ensures NoConnections(old(rooms)) ==> NoConnections(rooms)
      ensures roomId !in old(rooms) ==> r == None && rooms == old(rooms)
      ensures roomId in old(rooms) ==>
        && rooms == old(rooms)[roomId := old(rooms)[roomId].(songs := Playlist.AddSong(old(rooms)[roomId].songs, song))]
        && r == Some(rooms[roomId].songs)
    {
      if roomId !in rooms {
        return None;
      }
      var room := rooms[roomId];
      var alreadyExists := Playlist.ContainsTitle(room.songs, song.title);
      if !alreadyExists {
        room := room.(songs := room.songs + [song]);
        rooms := rooms[roomId := room];
      }
      r := Some(room.songs);
    }

    /** `setNowPlaying`: null and no change for a missing room, a missing
        title or a title no song matches ignoring case; otherwise the first
        matching song becomes the song playing and is returned. */
    method SetNowPlaying(roomId: RoomId, title: Option<string>) returns (r: Option<Song>)
      requires Valid()
      modifies this
      ensures Valid() && nextId == old(nextId)
      ensures NoConnections(old(rooms)) ==> NoConnections(rooms)
      ensures roomId !in old(rooms) || title.None? ==> r == None && rooms == old(rooms)
      ensures roomId in old(rooms) && title.Some? ==>
        && r == Playlist.SongMatching(old(rooms)[roomId].songs, title.value)
        && rooms == (if r.None? then old(rooms) else old(rooms)[roomId := old(rooms)[roomId].(nowPlaying := r)])
    {
      if roomId !in rooms || title.None? {
        return None;
      }
      var room := rooms[roomId];
      r := Playlist.FindSong(room.songs, title.value);
      if r.Some? {
        rooms := rooms[roomId := room.(nowPlaying := r)];
      }
    }

    /** `removeParticipant`: throws "Room not found" for a missing room;
        otherwise pulls every participant with `_id` `key` and returns the
        roster left. */
    method RemoveParticipant(roomId: RoomId, key: ParticipantKey) returns (r: Outcome<seq<Participant>>)
      requires Valid()
      modifies this
      ensures Valid() && nextId == old(nextId)
      ensures NoConnections(old(rooms)) ==> NoConnections(rooms)
      ensures roomId !in old(rooms) ==> r == Threw("Room not found") && rooms == old(rooms)
      ensures roomId in old(rooms) ==>
        && rooms == old(rooms)[roomId := old(rooms)[roomId].(participants := Roster.RemoveKey(old(rooms)[roomId].participants, key))]
        && r == Returned(rooms[roomId].participants)
    {
      if roomId !in rooms {
        return Threw("Room not found");
      }
      var room := rooms[roomId];
      var kept := Roster.RemoveKey(room.participants, key);
      Roster.RemoveKeyKeepsNamesUnique(room.participants, key);
      forall i | 0 <= i < |kept| ensures kept[i].key < nextId {
        assert kept[i] in room.participants;
      }
      room := room.(participants := kept);
      rooms := rooms[roomId := room];
      r := Returned(kept);
    }

    /** `removeSong`: `[]` for a missing room; otherwise pulls every song
        titled exactly `title` and returns the playlist left. */
    method RemoveSong(roomId: RoomId, title: string) returns (r: seq<Song>)
      requires Valid()
      modifies this
      ensures Valid() && nextId == old(nextId)
      ensures NoConnections(old(rooms)) ==> NoConnections(rooms)
      ensures roomId !in old(rooms) ==> r == [] && rooms == old(rooms)
      ensures roomId in old(rooms) ==>
        && rooms == old(rooms)[roomId := old(rooms)[roomId].(songs := Playlist.RemoveTitle(old(rooms)[roomId].songs, title))]
        && r == rooms[roomId].songs
    {
      if roomId !in rooms {
        return [];
      }
      var room := rooms[roomId];
      room := room.(songs := Playlist.RemoveTitle(room.songs, title));
      rooms := rooms[roomId := room];
      r := room.songs;
    }

    /** `skipSong`: null for a missing room; otherwise the rotation of
        `Playlist.Skip`, returning the song playing afterwards (on an empty
        playlist, the unchanged song playing, which may be null). */
    method SkipSong(roomId: RoomId) returns (r: Option<Song>)
      requires Valid()
      modifies this
      ensures Valid() && nextId == old(nextId)
      ensures NoConnections(old(rooms)) ==> NoConnections(rooms)
      ensures roomId !in old(rooms) ==> r == None && rooms == old(rooms)
      ensures roomId in old(rooms) ==>
        var room := old(rooms)[roomId];
        var st := Playlist.Skip(Playlist.PlayState(room.songs, room.nowPlaying));
        && rooms == old(rooms)[roomId := room.(songs := st.songs, nowPlaying := st.current)]
        && r == st.current
    {
      if roomId !in rooms {
        return None;
      }
      var room := rooms[roomId];
      var playlist := room.songs;
      var current := room.nowPlaying;
      if |playlist| == 0 {
        return current;
      }
      if current.Some? {
        playlist := playlist + [current.value];
      }
      var nextSong := playlist[0];
      playlist := playlist[1..];
      rooms := rooms[roomId := room.(nowPlaying := Some(nextSong), songs := playlist)];
      r := Some(nextSong);
    }

    /** `getRoom` as written: its log line after the `try` names the catch
        parameter `err` outside its scope, so whenever no room is found the
        call rejects with a ReferenceError instead of resolving to nothing. */
    function GetRoomAsWritten(roomId: RoomId): (r: Outcome<Option<Room>>)
      reads this
      ensures roomId in rooms ==> r == Returned(Some(rooms[roomId]))
      ensures roomId !in rooms ==> r.Threw?
    {
      if roomId in rooms then Returned(Some(rooms[roomId])) else Threw("err is not defined")
    }

    /** `getRoom` as intended: the stored room, or nothing. */
    function GetRoom(roomId: RoomId): (r: Option<Room>)
      reads this
      ensures r.Some? <==> roomId in rooms
      ensures r.Some? ==> r.value == rooms[roomId]
    {
      if roomId in rooms then Some(rooms[roomId]) else None
    }

    /** `getRoomState`: the room's snapshot, or null. */
    function GetRoomState(roomId: RoomId): (r: Option<Room>)
      reads this
      ensures r.None? <==> roomId !in rooms
      ensures r.Some? ==> r.value == rooms[roomId]
    {
      GetRoom(roomId)
    }

    /** `getPlaylist`: the room's songs, or `[]`. */
    function GetPlaylist(roomId: RoomId): (r: seq<Song>)
      reads this
      ensures roomId in rooms ==> r == rooms[roomId].songs
      ensures roomId !in rooms ==> r == []
    {
      match GetRoom(roomId)
      case Some(room) => room.songs
      case None => []
    }

    /** `getNowPlaying`: the song playing, or null. */
    function GetNowPlaying(roomId: RoomId): (r: Option<Song>)
      reads this
      ensures roomId in rooms ==> r == rooms[roomId].nowPlaying
      ensures roomId !in rooms ==> r == None
    {
      match GetRoom(roomId)
      case Some(room) => room.nowPlaying
      case None => None
    }

    /** `getParticipants`: the roster, or `[]`. */
    function GetParticipants(roomId: RoomId): (r: seq<Participant>)
      reads this
      ensures roomId in rooms ==> r == rooms[roomId].participants
      ensures roomId !in rooms ==> r == []
    {
      if roomId in rooms then rooms[roomId].participants else []
    }
  }

  /** For a room id that is not stored, `getRoom` as written rejects, where
      the readers built on it mean to answer with their defaults. */
  lemma MissingRoomRejects(store: RoomStore, roomId: RoomId)
    requires roomId !in store.rooms
    ensures store.GetRoomAsWritten(roomId).Threw?
    ensures store.GetRoom(roomId) == None && store.GetPlaylist(roomId) == []
    ensures store.GetNowPlaying(roomId) == None && store.GetRoomState(roomId) == None
  {
  }
}
