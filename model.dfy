/** The shapes of the stored documents: a room with its playlist, the song it
    is playing and its participants. */
module Model {
  import opened Common

  /** Document ids. The store mints them from one counter, as ObjectIds are
      unique across collections. */
  type RoomId = nat
  type ParticipantKey = nat

  /** A song as the service stores it: the request's title, url and duration. */
  datatype Song = Song(title: string, url: string, duration: Option<int>)

  /** The host is created with role "host"; joiners carry no role. */
  datatype Role = Host | Unassigned

  /** A participant sub-document: its `_id` (`key`), its display name, its role
      and the `id` field the disconnect sweep matches on (`socketId`), which
      nothing in the service ever writes. */
  datatype Participant = Participant(key: ParticipantKey, user: string, role: Role, socketId: Option<string>)

  datatype Room = Room(
    id: RoomId,
    name: string,
    songs: seq<Song>,
    nowPlaying: Option<Song>,
    participants: seq<Participant>)
}
