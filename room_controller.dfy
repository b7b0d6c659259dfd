/** The HTTP handlers of the room routes, without the HTTP machinery. A
    handler that validates its request is split in two: `...Request` decides
    from the request fields whether to answer at once or what to pass to the
    service, and `...Reply` maps what the service resolved or rejected with to
    a status and a JSON body. */
module RoomController {
  import opened Common
  import opened Model
  import Text
  import Playlist
  import Roster
  import RoomService

  /** The JSON bodies the handlers send. `Failure` is
      `{ success: false, message }` (the message may be absent); the others
      carry `success: true`, and the join and add-song bodies a fixed
      message as well (`okMessage`, sent as `message`). */
  datatype Body =
    | Failure(message: Option<string>)
    | Created(room: Room)
    | Joined(okMessage: string, room: Room, newParticipant: Option<Participant>)
    | SongAdded(okMessage: string, playlist: seq<Song>)
    | Playing(nowPlaying: Song)

  datatype Response = Response(status: int, body: Body)

  /** Either an immediate answer, or the argument the service is called with. */
  datatype Step<A> = Respond(response: Response) | CallService(arg: A)

  /** A string request field in a JavaScript truth test: absent and `""` are
      falsy. */
  predicate Truthy(field: Option<string>) {
    field.Some? && field.value != ""
  }

  const ServerError := Response(500, Failure(Some("Server error")))

  /** `createRoom`: 400 unless both `name` and `userName` are non-empty. */
  function CreateRoomRequest(name: Option<string>, userName: Option<string>): (r: Step<(string, string)>)
    ensures r.Respond? <==> name.None? || userName.None? || name.value == "" || userName.value == ""
    ensures r.Respond? ==> r.response == Response(400, Failure(Some("Room name and user required")))
    ensures r.CallService? ==> r.arg == (name.value, userName.value)
  {
    if !Truthy(name) || !Truthy(userName) then Respond(Response(400, Failure(Some("Room name and user required"))))
    else CallService((name.value, userName.value))
  }

  function CreateRoomReply(result: Outcome<Room>): (r: Response)
    ensures r.status == 200 <==> result.Returned?
    ensures result.Returned? ==> r.body == Created(result.value)
    ensures result.Threw? ==> r == ServerError
  {
    match result
    case Returned(room) => Response(200, Created(room))
    case Threw(_) => ServerError
  }

  /** `joinRoom`: 400 when `user` is absent or only whitespace; otherwise the
      service gets the trimmed name. */
  function JoinRoomRequest(user: Option<string>): (r: Step<string>)
    ensures r.Respond? <==> user.None? || Text.AllWhitespace(user.value)
    ensures r.Respond? ==> r.response == Response(400, Failure(Some("User name required")))
    ensures r.CallService? ==> r.arg == Text.Trim(user.value)
    ensures r.CallService? ==> r.arg != "" && !Text.IsWhitespace(r.arg[0]) && !Text.IsWhitespace(r.arg[|r.arg| - 1])
  {
    if !Truthy(user) || Text.Trim(user.value) == "" then Respond(Response(400, Failure(Some("User name required"))))
    else CallService(Text.Trim(user.value))
  }

  /** Maps `addParticipant`'s result. A null result (missing room) makes the
      handler read `isUserAdded` of null, and the TypeError lands in the 500
      branch; so does an added result without its new participant. */
  function JoinRoomReply(result: Outcome<Option<RoomService.JoinResult>>): (r: Response)
    ensures r.status == 200 <==>
      result.Returned? && result.value.Some? && result.value.value.isUserAdded && result.value.value.newUser.Some?
    ensures r.status == 404 <==> result.Returned? && result.value.Some? && !result.value.value.isUserAdded
    ensures r.status == 404 ==> r.body == Failure(Some("UserName already exists in room"))
    ensures r.status != 200 && r.status != 404 ==> r == ServerError
    ensures r.status == 200 ==>
      var j := result.value.value;
      r.body == Joined("Joined room successfully", j.room, Roster.FindUser(j.room.participants, j.newUser.value))
  {
    match result
    case Threw(_) => ServerError
    case Returned(None) => ServerError
    case Returned(Some(j)) =>
      if !j.isUserAdded then Response(404, Failure(Some("UserName already exists in room")))
      else if j.newUser.None? then ServerError
      else Response(200, Joined("Joined room successfully", j.room, Roster.FindUser(j.room.participants, j.newUser.value)))
  }

  /** `addSong`: 400 unless `title` and `url` are non-empty; otherwise the
      service gets `{ title, url, duration }`. */
  function AddSongRequest(title: Option<string>, url: Option<string>, duration: Option<int>): (r: Step<Song>)
    ensures r.Respond? <==> title.None? || url.None? || title.value == "" || url.value == ""
    ensures r.Respond? ==> r.response == Response(400, Failure(Some("Song title and url are required")))
    ensures r.CallService? ==> r.arg == Song(title.value, url.value, duration)
  {
    if !Truthy(title) || !Truthy(url) then Respond(Response(400, Failure(Some("Song title and url are required"))))
    else CallService(Song(title.value, url.value, duration))
  }

  function AddSongReply(result: Outcome<Option<seq<Song>>>): (r: Response)
    ensures r.status == 200 <==> result.Returned? && result.value.Some?
    ensures r.status == 200 ==> r.body == SongAdded("Song added successfully", result.value.value)
    ensures result == Returned(None) ==> r == Response(404, Failure(Some("Room not found")))
    ensures result.Threw? ==> r == ServerError
  {
    match result
    case Threw(_) => ServerError
    case Returned(None) => Response(404, Failure(Some("Room not found")))
    case Returned(Some(playlist)) => Response(200, SongAdded("Song added successfully", playlist))
  }

  /** `setNowPlaying` (no try/catch; the service never rejects). */
  function SetNowPlayingReply(result: Option<Song>): (r: Response)
    ensures r.status == 200 <==> result.Some?
    ensures result.Some? ==> r.body == Playing(result.value)
    ensures result.None? ==> r == Response(404, Failure(Some("Song or Room not found")))
  {
    match result
    case Some(song) => Response(200, Playing(song))
    case None => Response(404, Failure(Some("Song or Room not found")))
  }

  function SkipSongReply(result: Outcome<Option<Song>>): (r: Response)
    ensures r.status == 200 <==> result.Returned? && result.value.Some?
    ensures r.status == 200 ==> r.body == Playing(result.value.value)
    ensures result == Returned(None) ==> r == Response(404, Failure(Some("No more songs")))
    ensures result.Threw? ==> r == Response(500, Failure(None))
  {
    match result
    case Threw(_) => Response(500, Failure(None))
    case Returned(None) => Response(404, Failure(Some("No more songs")))
    case Returned(Some(song)) => Response(200, Playing(song))
  }

  /** `previousSong` calls a service function that does not exist; the
      TypeError is caught and every request is answered with 500. */
  function PreviousSongReply(): (r: Response)
    ensures r.status == 500 && r.body == Failure(None)
  {
    Response(500, Failure(None))
  }

  /** Joining an existing room end to end: with a valid name the request
      succeeds exactly when the trimmed name is not taken ignoring case, and
      then answers with the participant just added under its new `_id`. */
  lemma JoinRoomEndToEnd(room: Room, user: string, key: ParticipantKey)
    requires JoinRoomRequest(Some(user)).CallService?
    ensures
      var name := Text.Trim(user);
      var r := JoinRoomReply(Returned(Some(RoomService.JoinRoom(room, name, key))));
      && (r.status == 200 <==> !Roster.HasUser(room.participants, name))
      && (r.status == 200 ==> r.body.newParticipant == Some(Participant(key, name, Unassigned, None)))
      && (r.status != 200 ==> r.status == 404)
  {
    var name := Text.Trim(user);
    if !Roster.HasUser(room.participants, name) {
      Roster.FindUserAfterJoin(room.participants, name, key);
    }
  }

  /** Selecting a song in an existing room end to end: 404 exactly when no
      title matches ignoring case; otherwise the answer names a listed song. */
  lemma SetNowPlayingEndToEnd(room: Room, title: string)
    ensures
      var r := SetNowPlayingReply(Playlist.SongMatching(room.songs, title));
      && (r.status == 404 <==> forall k :: 0 <= k < |room.songs| ==> !Text.EqualsIgnoreCase(room.songs[k].title, title))
      && (r.status == 200 ==> r.body.nowPlaying in room.songs && Text.EqualsIgnoreCase(r.body.nowPlaying.title, title))
  {
  }

  /** Skipping in an existing room end to end: "No more songs" exactly when
      the playlist is empty and nothing is playing. */
  lemma SkipSongEndToEnd(room: Room)
    ensures
      var st := Playlist.Skip(Playlist.PlayState(room.songs, room.nowPlaying));
      var r := SkipSongReply(Returned(st.current));
      r.status == 404 <==> room.songs == [] && room.nowPlaying.None?
  {
  }
}
