# Shared listening rooms: room service and room controller in Dafny

This project models the core of a shared-listening backend. A room has a
name, a playlist (`songs`), the song playing (`nowPlaying`) and a roster of
participants. The room service loads a room by id, changes one of those
fields and stores the room back. The room controller turns HTTP request
fields and the service's result into a status code and a JSON body.

Layout, one module per file:

- `common.dfy` (`Common`): `Option` for JavaScript's null/undefined. `Outcome` for a
  call that resolves or rejects.
- `text.dfy` (`Text`): case folding (`toLowerCase`) and `trim`.
- `seqs.dfy` (`Seqs`): an order-preserving filter. It is the shape of every `$pull`.
- `model.dfy` (`Model`): the `Song`, `Participant` and `Room` documents.
- `playlist.dfy` (`Playlist`): the playlist operations. These are the title duplicate check,
  the case-insensitive lookup, removal by title, and the skip rotation.
- `roster.dfy` (`Roster`): the participant operations. These are the case-insensitive join,
  removal by `_id`, and removal by the `id` field.
- `room_service.dfy` (`RoomService`): the class `RoomStore`. It holds `rooms: map<RoomId, Room>` and
  the id counter `nextId`, with one method per service operation and one
  function per reader.
- `room_controller.dfy` (`RoomController`): the handlers as functions. `...Request` handles
  validation. `...Reply` maps the service result to a response.

The database is replaced by the map. A missing document is a missing key.
The ids the database would mint (room `_id`, participant `_id`) come from
the counter. `RoomStore.Valid()` states three things: every room is stored
under its own id, every id is below the counter, and no room lists two names
that are equal ignoring case. Every method keeps `Valid()`.

`RoomStore.CreateRoom` states the new room outright. Each other
state-changing method is proved against a pure function of the old room (of
the old store, for the sweep). Those functions are `Roster.Join`,
`Playlist.AddSong`, `Playlist.SongMatching`, `Roster.RemoveKey`,
`Playlist.RemoveTitle`, `Playlist.Skip` and `RoomService.SweepRooms`. The
lemmas beside them state what the source promises.

Facts about the code that the model records:

- Songs are deduplicated on add by exact title, not by URL.
- Adding a song never sets the song playing.
- Skip is a rotation of the queue (song playing, then playlist), not a
  wrap-around cursor. The song playing need not be in the playlist.
  When no song appears twice in the queue, the song playing after a skip is
  not in the playlist (`Playlist.SkipTakesCurrentOutOfSongs`).
- Selecting a song by title leaves it both playing and listed. If it was the
  head, the next skip plays the same song again (`Playlist.SkipAfterSelectingHead`).
  From playlist [a, b] with `a` selected, two skips list `a` twice (`Playlist.SkipCanRepeatSong`).
- Removing a song never touches the song playing.
- There is no "previous song" operation. Its route always answers 500.
- The participant `_id` is what `removeParticipant` matches. The disconnect
  sweep matches a field `id` that the service never writes. The model keeps
  both as `Participant.key` and `Participant.socketId`. The constructor
  establishes `RoomService.NoConnections`, and every mutator other than the sweep keeps it.
  On such a store the sweep removes nobody (`RoomService.SweepWithoutConnections`),
  so the sweep keeps it as well.

## Model

| member | source | states |
|---|---|---|
| `RoomService.RoomStore.CreateRoom` | src/services/roomService.js:11-25 | the new room is stored under a fresh id and leaves every other room alone (it also keeps `NoConnections`, as do the other mutators except the sweep, which `SweepWithoutConnections` covers); it has the given name, no songs, nothing playing, and exactly one participant: the host, with role host |
| `RoomService.RoomStore.AddParticipant` | src/services/roomService.js:63-91 | a missing room gives null and changes nothing; otherwise the store holds the room `JoinRoom` produces, under the next minted `_id`, and the result carries that room |
| `RoomService.JoinRoom` | src/services/roomService.js:70-91 | `isUserAdded` holds exactly when no name matches ignoring case; the `{user}` record is returned exactly when it was added; only the roster changes |
| `Roster.ContainsUser` | src/services/roomService.js:78-80 | the scan answers true exactly when some participant's name equals `user` ignoring case |
| `Roster.Join` | src/services/roomService.js:73-86 | afterwards the name is always on the roster; the earlier entries are untouched; the roster grows by one exactly when the name was not taken, and the new last entry is `{user}` under the minted `_id` |
| `Roster.JoinKeepsNamesUnique` | src/services/roomService.js:78-86 | if no two names on the roster are equal ignoring case before a join, none are after |
| `Roster.JoinRejectsOtherCase` | src/services/roomService.js:78-89 | with "Alice" on the roster, a join as "alice" leaves the roster unchanged |
| `Text.Lower` | src/services/roomService.js:79 | case folding keeps the length and folds each character on its own |
| `Text.LowerIdempotent` | src/services/roomService.js:79 | folding twice equals folding once, so a folded name compares equal to the name it came from |
| `RoomService.RoomStore.RemoveParticipantFromAll` | src/services/roomService.js:98-110 | the rooms afterwards are `SweepRooms` of the rooms before, both when the early return is taken and when the pull runs over every room |
| `RoomService.SweepRooms` | src/services/roomService.js:100-110 | the same rooms remain; each room keeps its id, name, songs and song playing, and its roster becomes `RemoveSocket` of it; none holds the connection id any more; a room that did not hold it is unchanged |
| `RoomService.SweepUnmatched` | src/services/roomService.js:104 | when no room holds the connection id, the sweep changes nothing, so the early return agrees with the pull |
| `RoomService.SweepKeepsInvariant` | src/services/roomService.js:106-109 | the sweep keeps every room under its id, every `_id` below the counter and every roster's names distinct ignoring case |
| `RoomService.SweepWithoutConnections` | src/services/roomService.js:100-109 | on a store where no participant carries a connection `id`, which is every store the service builds, the sweep removes nobody |
| `RoomService.SweepRoomsIdempotent` | src/services/roomService.js:100-109 | a second sweep for the same connection changes nothing |
| `Roster.RemoveSocket` | src/services/roomService.js:106-109 | no participant with the `id` remains; a participant survives exactly when its `id` differs; a roster without that `id` is returned unchanged |
| `Roster.RemoveSocketKeepsOrder` | src/services/roomService.js:106-109 | removal by connection id from a concatenation is removal from each part, so the survivors keep their roster order |
| `Roster.RemoveSocketKeepsNamesUnique` | src/services/roomService.js:106-109 | the sweep keeps the names distinct ignoring case |
| `RoomService.RoomStore.AddSong` | src/services/roomService.js:121-135 | a missing room gives null and changes nothing; otherwise only that room's playlist changes, to `Playlist.AddSong` of it; the song playing is untouched; the returned list is the playlist stored afterwards |
| `Playlist.ContainsTitle` | src/services/roomService.js:128 | the scan answers true exactly when some song has exactly that title |
| `Playlist.AddSong` | src/services/roomService.js:128-131 | afterwards the title is listed; the earlier songs are kept in place; the playlist grows by one exactly when the title was new, and then ends with the song |
| `Playlist.AddSongTwice` | src/services/roomService.js:128-133 | adding the same song a second time leaves the playlist as the first add did |
| `Playlist.AddSongKeepsTitlesDistinct` | src/services/roomService.js:128-131 | adding never creates two songs with the same title |
| `RoomService.RoomStore.SetNowPlaying` | src/services/roomService.js:147-160 | a missing room, an absent title or a title no song matches gives null and changes nothing; otherwise the matched song becomes the song playing, is returned, and nothing else changes |
| `Playlist.FirstTitleMatch` | src/services/roomService.js:153-155 | the index found is the first one whose title equals the given title ignoring case, or the playlist length when none does |
| `Playlist.SongMatching` | src/services/roomService.js:153-156 | no song is found exactly when no title matches ignoring case; a found song is listed in the playlist and its title matches |
| `Playlist.FindSong` | src/services/roomService.js:153-155 | the front-to-back scan finds the same song as `SongMatching` |
| `RoomService.RoomStore.RemoveParticipant` | src/services/roomService.js:194-210 | a missing room rejects with "Room not found" and changes nothing; otherwise only that room's roster changes, to `RemoveKey` of it, and the new roster is returned |
| `Roster.RemoveKey` | src/services/roomService.js:196-200 | no participant with that `_id` remains; a participant survives exactly when its `_id` differs; a roster without that `_id` is returned unchanged |
| `Roster.RemoveKeyKeepsOrder` | src/services/roomService.js:198 | removal from a concatenation is removal from each part, so the survivors keep their roster order |
| `Roster.RemoveKeyUndoesJoin` | src/services/roomService.js:196-200 | removing the participant a join just added gives back the roster from before the join |
| `Roster.RemoveKeyKeepsNamesUnique` | src/services/roomService.js:196-200 | removal keeps the names distinct ignoring case |
| `RoomService.RoomStore.RemoveSong` | src/services/roomService.js:213-221 | a missing room gives `[]` and changes nothing; otherwise only that room's playlist changes, to `RemoveTitle` of it, and is returned; the song playing is untouched |
| `Playlist.RemoveTitle` | src/services/roomService.js:214-218 | no song with that exact title remains; a song survives exactly when its title differs; a playlist without that title is returned unchanged |
| `Playlist.RemoveTitleKeepsOrder` | src/services/roomService.js:216 | removal from a concatenation is removal from each part, so the survivors keep their order |
| `Playlist.RemoveTitleIdempotent` | src/services/roomService.js:216 | removing the same title twice is removing it once |
| `Seqs.FilterConcat` | src/services/roomService.js:216 | filtering a concatenation filters each part, in order |
| `RoomService.RoomStore.SkipSong` | src/services/roomService.js:223-246 | a missing room gives null and changes nothing; otherwise only that room's songs and song playing change, to `Playlist.Skip` of them, and the song playing afterwards is returned (on an empty playlist, the unchanged one) |
| `Playlist.Skip` | src/services/roomService.js:228-242 | an empty playlist is unchanged; otherwise the old head plays next; with a song playing, the playlist length is kept and the queue (song playing, then playlist) is rotated by one; with none, the head leaves the playlist and the queue is unchanged; the multiset of the queue is always preserved |
| `Playlist.RotateLeft` | src/services/roomService.js:236-239 | moving the head to the end keeps the length and the multiset |
| `Playlist.SkipTimesRotates` | src/services/roomService.js:235-242 | with a song playing, `k` skips rotate the queue by `k` places and something is still playing |
| `Playlist.SkipCycle` | src/services/roomService.js:235-242 | with a song playing, one skip per song in the queue returns the room to exactly its starting songs and song playing |
| `Playlist.SkipTakesCurrentOutOfSongs` | src/services/roomService.js:236-241 | when the queue lists no song twice, the song playing after a skip is not in the playlist |
| `Playlist.SkipAfterSelectingHead` | src/services/roomService.js:235-242 | when the head song is the one playing, a skip plays it again and it stays listed, at the end of the playlist |
| `Playlist.SkipCanRepeatSong` | src/services/roomService.js:236-242 | from playlist [a, b] with a playing, two skips give playlist [a, a] with b playing |
| `RoomService.RoomStore.GetRoomAsWritten` | src/services/roomService.js:45-51 | a stored room is returned; for a missing room the call rejects |
| `RoomService.RoomStore.GetRoom` | src/services/roomService.js:45-51 | a room is returned exactly when it is stored, and it is the stored one |
| `RoomService.MissingRoomRejects` | src/services/roomService.js:45-51 | for a missing room `getRoom` as written rejects, while the corrected readers return null and `[]` |
| `RoomService.RoomStore.GetRoomState` | src/services/roomService.js:177-187 | null exactly for a missing room; otherwise the stored room's fields |
| `RoomService.RoomStore.GetPlaylist` | src/services/roomService.js:142-145 | the stored songs, or `[]` for a missing room |
| `RoomService.RoomStore.GetNowPlaying` | src/services/roomService.js:167-170 | the stored song playing, or null for a missing room |
| `RoomService.RoomStore.GetParticipants` | src/services/roomService.js:189-192 | the stored roster, or `[]` for a missing room |
| `Text.Trim` | src/controllers/roomController.js:90-97 | the result is the slice of the input left after cutting all leading and all trailing whitespace; it neither starts nor ends with whitespace; it is empty exactly when the input is all whitespace |
| `Text.TrimIdempotent` | src/controllers/roomController.js:97 | trimming a trimmed name changes nothing |
| `RoomController.CreateRoomRequest` | src/controllers/roomController.js:8-15 | 400 "Room name and user required" exactly when `name` or `userName` is absent or empty; otherwise the service receives both unchanged |
| `RoomController.CreateRoomReply` | src/controllers/roomController.js:15-24 | success exactly when the service resolves, with the created room as body; a rejection gives 500 "Server error" |
| `RoomController.JoinRoomRequest` | src/controllers/roomController.js:90-97 | 400 "User name required" exactly when `user` is absent or only whitespace; otherwise the service receives the trimmed name, which is non-empty and has no surrounding whitespace |
| `RoomController.JoinRoomReply` | src/controllers/roomController.js:97-121 | 200 exactly when the service added the name, with the message "Joined room successfully", the room and the participant found by exact name; 404 "UserName already exists in room" exactly when the name was taken; a null result or a rejection gives 500 |
| `Roster.FindUser` | src/controllers/roomController.js:111-113 | nothing is found exactly when no name is exactly equal; a found participant is on the roster, has exactly that name, and no earlier participant has it |
| `Roster.FindUserAfterJoin` | src/controllers/roomController.js:111-113 | after a successful join, the exact-name lookup finds the participant the join appended |
| `RoomController.JoinRoomEndToEnd` | src/controllers/roomController.js:90-114 | for an existing room and a valid name, the answer is 200 exactly when the trimmed name is free ignoring case, and then names the new participant under its new `_id`; otherwise 404 |
| `RoomController.AddSongRequest` | src/controllers/roomController.js:129-137 | 400 "Song title and url are required" exactly when `title` or `url` is absent or empty; otherwise the service receives `{title, url, duration}` |
| `RoomController.AddSongReply` | src/controllers/roomController.js:137-157 | 200 with the message "Song added successfully" and the playlist exactly when the service returns one; null gives 404 "Room not found"; a rejection gives 500 |
| `RoomController.SetNowPlayingReply` | src/controllers/roomController.js:164-172 | 200 with the song exactly when the service returns one; null gives 404 "Song or Room not found" |
| `RoomController.SetNowPlayingEndToEnd` | src/controllers/roomController.js:164-172 | for an existing room, 404 exactly when no title matches ignoring case; otherwise the song answered is listed and its title matches |
| `RoomController.SkipSongReply` | src/controllers/roomController.js:216-228 | 200 with the song exactly when the service returns one; null gives 404 "No more songs"; a rejection gives 500 |
| `RoomController.SkipSongEndToEnd` | src/controllers/roomController.js:216-225 | for an existing room, "No more songs" exactly when the playlist is empty and nothing is playing |
| `RoomController.PreviousSongReply` | src/controllers/roomController.js:231-250 | every request is answered with 500, because the service function it calls does not exist |

## Findings

| source | as written | input that shows it | evidently intended | confidence | as-written member | corrected member |
|---|---|---|---|---|---|---|
| src/services/roomService.js:45-51 | the log line after the `try` reads `err`, which is bound only inside the `catch` block, so it throws a ReferenceError | any room id with no stored room | resolve to nothing, so that `getPlaylist`, `getNowPlaying` and `getRoomState` fall back to `[]` and null | high; not executed | `RoomService.RoomStore.GetRoomAsWritten` | `RoomService.RoomStore.GetRoom` |

## Left out

- Persistence. Mongoose `findById`, `save`, `findByIdAndUpdate`, `updateMany` and `.lean()` are replaced by the map.
  The save at src/services/roomService.js:132 is not awaited. The model applies the update at once.
- Database failures. The store never fails, so these paths are not modelled. In the source they behave as follows:
  - `addParticipant`, `addSong` and `setNowPlaying` log the error and resolve with null.
  - `createRoom` logs it and throws a new `Error("Could not create room")` (src/services/roomService.js:26-28).
  - `removeParticipant` logs it and rethrows it (src/services/roomService.js:207-209).
  - `removeParticipantFromAll` logs it and swallows it (src/services/roomService.js:116-118).
  - `checkRoomExists` logs it and resolves with false, and `getAllRooms` logs it and resolves with `[]`.
  - `getRoom` swallows it and then rejects on the out-of-scope `err` (see "## Findings").
  - `removeSong`, `skipSong` and the second `getParticipants` have no try/catch, so their promises reject.
  The controller functions take the service outcome as a parameter, so their 500 branches are covered.
- Concurrency. Loads and saves are not atomic in the source, and interleavings are not modelled.
- Socket.io broadcasting. This covers the `io` handle and the `participants_updated` emit at src/services/roomService.js:111-115. All of server.js is left out too.
- `checkRoomExists` and `getAllRooms`. These are database lookups, and room lookup here is map membership.
- The handlers outside the six modelled ones (src/controllers/roomController.js). Their behaviour in the source:
  - `getAllRooms`, `getPlaylist`, `getNowPlaying`, `getParticipants`, `leaveRoom`, `removeSong` and `removeParticipant` answer 200 with the service's result.
    On a rejection `getParticipants`, `leaveRoom`, `removeSong` and `removeParticipant` answer 500 `{ success: false }`. `getAllRooms` and `getPlaylist` pass it to `next`, and `getNowPlaying` calls a `next` it does not declare, so the error escapes the handler.
  - `getRoom` answers 404 `{ error: "room_not_found" }` when the service returns nothing, and 200 with the room otherwise (src/controllers/roomController.js:27-36).
  - `checkRoomExists` answers 404 "Room not found" when the service says false, 200 `{ exists: true, roomId }` when it says true, and 500 "Internal server error" on a rejection (src/controllers/roomController.js:57-83).
  - `getAllSongs` calls `RoomService.getAllSongs`, which does not exist, so like `previousSong` it always answers 500 `{ success: false }` (src/controllers/roomController.js:266-273).
  The routes table, the user controller and the random id helper are also left out.
- Schema coercion. src/models/Room.js declares `songs` and `nowPlaying` as ObjectId references, while the service stores and compares song records by title. The model follows the service.
  The participant schema declares only `user`, so a strict schema would drop the host's `role` and never store an `id`. The model keeps what the service writes.
- `RoomService.RoomStore.GetParticipants`: this follows the second of the two `getParticipants` definitions (src/services/roomService.js:189-192), which overrides the first.
- `RoomService.RoomStore.GetRoomState`: the source reads `r.id` off a lean document, which carries only `_id`, so the snapshot's `id` is undefined there. The model returns the stored room with its id.
- `RoomService.RoomStore.RemoveParticipant`: a `userId` that is not a valid ObjectId makes the database reject the cast. Here the key is always a number.
- `Model.Song`: `duration` is an optional integer. In the source it is whatever JSON value the request carries (src/controllers/roomController.js:127, 136), usually a fractional number of seconds. The service only stores and returns it, and no property depends on it.
- `Text.Lower`: it folds ASCII letters only, not the full Unicode `toLowerCase`.
- `RoomController.JoinRoomRequest`: it takes string fields only. A non-string `user` would make `trim` throw and answer 500.
  `createRoom` and `addSong` likewise see only absent or string fields.
