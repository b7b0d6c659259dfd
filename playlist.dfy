/** The playlist side of a room: the duplicate check on add, the
    case-insensitive title lookup behind "now playing", removal by title and
    the rotation performed by a skip. */
module Playlist {
  import opened Common
  import opened Model
  import Text
  import Seqs

  predicate HasTitle(songs: seq<Song>, title: string) {
    exists i :: 0 <= i < |songs| && songs[i].title == title
  }

  function TitleOf(s: Song): string { s.title }

  /** `songs.some(s => s.title === title)`, scanned from the front. */
  method ContainsTitle(songs: seq<Song>, title: string) returns (found: bool)
    ensures found <==> HasTitle(songs, title)
  {
    found := false;
    var i := 0;
    while i < |songs| && !found
      invariant 0 <= i <= |songs|
      invariant found <==> exists k :: 0 <= k < i && songs[k].title == title
    {
      found := songs[i].title == title;
      i := i + 1;
    }
  }

  /** The playlist after `addSong`: the song goes to the end unless a song
      with exactly the same title (case-sensitive) is already listed. */
  function AddSong(songs: seq<Song>, song: Song): (r: seq<Song>)
    ensures HasTitle(r, song.title)
    ensures |r| == |songs| + (if HasTitle(songs, song.title) then 0 else 1)
    ensures r[..|songs|] == songs
    ensures |r| > |songs| ==> r[|songs|] == song
  {
    if HasTitle(songs, song.title) then songs
    else
      var r := songs + [song];
      assert r[|songs|].title == song.title;
      r
  }

  /** Adding the same song twice leaves the playlist as the first add did. */
  lemma AddSongTwice(songs: seq<Song>, song: Song)
    ensures AddSong(AddSong(songs, song), song) == AddSong(songs, song)
  {
  }

  /** A playlist built only by `addSong` never lists two songs with the same
      title. */
  lemma AddSongKeepsTitlesDistinct(songs: seq<Song>, song: Song)
    requires Seqs.DistinctBy(songs, TitleOf)
    ensures Seqs.DistinctBy(AddSong(songs, song), TitleOf)
  {
    var r := AddSong(songs, song);
    if !HasTitle(songs, song.title) {
      forall i, j | 0 <= i < j < |r| ensures TitleOf(r[i]) != TitleOf(r[j]) {
        if j == |songs| {
          assert r[i] == songs[i];
        } else {
          assert r[i] == songs[i] && r[j] == songs[j];
        }
      }
    }
  }

  /** The index of the first song whose title equals `title` ignoring case,
      or `|songs|` when no title matches. */
  function FirstTitleMatch(songs: seq<Song>, title: string): (i: nat)
    ensures i <= |songs|
    ensures forall k :: 0 <= k < i ==> !Text.EqualsIgnoreCase(songs[k].title, title)
    ensures i < |songs| ==> Text.EqualsIgnoreCase(songs[i].title, title)
  {
    if songs == [] then 0
    else if Text.EqualsIgnoreCase(songs[0].title, title) then 0
    else 1 + FirstTitleMatch(songs[1..], title)
  }

  /** `songs.find(s => s.title.toLowerCase() === title.toLowerCase())` */
  function SongMatching(songs: seq<Song>, title: string): (r: Option<Song>)
    ensures r.None? <==> forall k :: 0 <= k < |songs| ==> !Text.EqualsIgnoreCase(songs[k].title, title)
    ensures r.Some? ==> r.value in songs && Text.EqualsIgnoreCase(r.value.title, title)
    ensures r.Some? ==>
      exists i :: 0 <= i < |songs| && songs[i] == r.value && forall k :: 0 <= k < i ==> !Text.EqualsIgnoreCase(songs[k].title, title)
  {
    var i := FirstTitleMatch(songs, title);
    if i < |songs| then Some(songs[i]) else None
  }

  /** The lookup performed by `setNowPlaying`, scanned from the front. */
  method FindSong(songs: seq<Song>, title: string) returns (r: Option<Song>)
    ensures r == SongMatching(songs, title)
  {
    var i := 0;
    while i < |songs|
      invariant 0 <= i <= |songs|
      invariant forall k :: 0 <= k < i ==> !Text.EqualsIgnoreCase(songs[k].title, title)
    {
      if Text.EqualsIgnoreCase(songs[i].title, title) {
        return Some(songs[i]);
      }
      i := i + 1;
    }
    return None;
  }

  function TitleIsNot(title: string): Song -> bool {
    (s: Song) => s.title != title
  }

  /** The playlist after `removeSong`: `$pull` of every song whose title is
      exactly `title`. */
  function RemoveTitle(songs: seq<Song>, title: string): (r: seq<Song>)
    ensures !HasTitle(r, title)
    ensures forall s :: s in r <==> s in songs && s.title != title
    ensures !HasTitle(songs, title) ==> r == songs
  {
    var r := Seqs.Filter(songs, TitleIsNot(title));
    assert forall i :: 0 <= i < |r| ==> r[i] in r;
    if !HasTitle(songs, title) then Seqs.FilterKeepsAll(songs, TitleIsNot(title)); r else r
  }

  /** Removal by title keeps the surviving songs in their playlist order:
      removing from a concatenation removes from each part. */
  lemma RemoveTitleKeepsOrder(a: seq<Song>, b: seq<Song>, title: string)
    ensures RemoveTitle(a + b, title) == RemoveTitle(a, title) + RemoveTitle(b, title)
  {
    Seqs.FilterConcat(a, b, TitleIsNot(title));
  }

  /** Removing the same title a second time changes nothing. */
  lemma RemoveTitleIdempotent(songs: seq<Song>, title: string)
    ensures RemoveTitle(RemoveTitle(songs, title), title) == RemoveTitle(songs, title)
  {
  }

  /** The two room fields `skipSong` reads and writes. */
  datatype PlayState = PlayState(songs: seq<Song>, current: Option<Song>)

  /** The song playing (if any) followed by the playlist: the queue a skip
      rotates. */
  function Queue(st: PlayState): seq<Song> {
    (if st.current.Some? then [st.current.value] else []) + st.songs
  }

  /** Moves the head of a sequence to its end. */
  function RotateLeft(q: seq<Song>): (r: seq<Song>)
    ensures |r| == |q|
    ensures multiset(r) == multiset(q)
  {
    if q == [] then []
    else
      assert q == [q[0]] + q[1..];
      q[1..] + [q[0]]
  }

  /** `skipSong` on a loaded room: an empty playlist is left alone; otherwise
      the song playing (if any) is pushed onto the end of the playlist and the
      head is shifted off to become the song playing. */
  function Skip(st: PlayState): (r: PlayState)
    ensures st.songs == [] ==> r == st
    ensures st.songs != [] ==> r.current == Some(st.songs[0])
    ensures st.current.Some? ==> |r.songs| == |st.songs| && Queue(r) == RotateLeft(Queue(st))
    ensures st.current.None? ==> Queue(r) == Queue(st)
    ensures st.current.None? && st.songs != [] ==> r.songs == st.songs[1..]
    ensures multiset(Queue(r)) == multiset(Queue(st))
  {
    if st.songs == [] then st
    else
      var playlist := st.songs + (if st.current.Some? then [st.current.value] else []);
      PlayState(playlist[1..], Some(playlist[0]))
  }

  function SkipTimes(st: PlayState, k: nat): PlayState {
    if k == 0 then st else Skip(SkipTimes(st, k - 1))
  }

  /** One more rotation of a queue already rotated by `k - 1` places. */
  lemma RotateStep(q: seq<Song>, k: nat)
    requires 1 <= k <= |q|
    ensures RotateLeft(q[k - 1..] + q[..k - 1]) == q[k..] + q[..k]
  {
    var s := q[k - 1..] + q[..k - 1];
    assert s[0] == q[k - 1];
    assert s[1..] == q[k..] + q[..k - 1];
    assert q[..k] == q[..k - 1] + [q[k - 1]];
  }

  /** While a song is playing, `k` skips rotate the queue by `k` places. */
  lemma {:induction false} SkipTimesRotates(st: PlayState, k: nat)
    requires st.current.Some?
    requires k <= |Queue(st)|
    ensures SkipTimes(st, k).current.Some?
    ensures Queue(SkipTimes(st, k)) == Queue(st)[k..] + Queue(st)[..k]
  {
    var q := Queue(st);
    if k == 0 {
      assert q[0..] + q[..0] == q;
    } else {
      SkipTimesRotates(st, k - 1);
      var p := SkipTimes(st, k - 1);
      assert Queue(Skip(p)) == RotateLeft(Queue(p));
      RotateStep(q, k);
    }
  }

  /** Skip is a rotation, not a cursor: with a song playing, skipping once per
      song in the queue brings the room back to exactly where it started. */
  lemma SkipCycle(st: PlayState)
    requires st.current.Some?
    ensures SkipTimes(st, |st.songs| + 1) == st
  {
    var n := |st.songs| + 1;
    var q := Queue(st);
    SkipTimesRotates(st, n);
    var r := SkipTimes(st, n);
    assert q[n..] + q[..n] == q;
    assert Queue(r) == [r.current.value] + r.songs;
    assert r.current == st.current;
    assert r.songs == q[1..] == st.songs;
  }

  predicate NoRepeats(q: seq<Song>) {
    forall i, j :: 0 <= i < j < |q| ==> q[i] != q[j]
  }

  lemma NoRepeatsTail(q: seq<Song>)
    requires q != [] && NoRepeats(q)
    ensures q[0] !in q[1..] && NoRepeats(q[1..])
  {
    forall k | 0 <= k < |q| - 1 ensures q[1..][k] != q[0] {
      assert q[1..][k] == q[k + 1];
    }
  }

  /** When no song appears twice in the queue, the song playing after a skip
      is not in the playlist. A song selected by title is both playing and
      listed, which breaks that condition (see `SkipAfterSelectingHead`). */
  lemma SkipTakesCurrentOutOfSongs(st: PlayState)
    requires st.songs != []
    requires NoRepeats(Queue(st))
    ensures Skip(st).current.value !in Skip(st).songs
  {
    var q := Queue(st);
    NoRepeatsTail(q);
    if st.current.Some? {
      assert q[1..] == st.songs;
      NoRepeatsTail(st.songs);
      assert st.songs[0] != st.current.value;
      assert Skip(st).songs == st.songs[1..] + [st.current.value];
    } else {
      assert q == st.songs;
    }
  }

  /** Skipping right after the head song was selected plays that song again:
      it was both playing and listed, and stays both. */
  lemma SkipAfterSelectingHead(st: PlayState)
    requires st.songs != [] && st.current == Some(st.songs[0])
    ensures Skip(st).current == st.current
    ensures Skip(st).songs == st.songs[1..] + [st.songs[0]]
    ensures Skip(st).current.value in Skip(st).songs
  {
    assert Skip(st).songs[|st.songs| - 1] == st.songs[0];
  }

  /** From playlist [a, b] with its head selected, two skips list `a` twice:
      titles in the playlist are not kept distinct once skips happen. */
  lemma SkipCanRepeatSong(a: Song, b: Song)
    ensures SkipTimes(PlayState([a, b], Some(a)), 2) == PlayState([a, a], Some(b))
  {
    var st := PlayState([a, b], Some(a));
    assert ([a, b] + [a])[1..] == [b, a];
    var once := Skip(st);
    assert once == PlayState([b, a], Some(a));
    assert ([b, a] + [a])[1..] == [a, a];
    assert Skip(once) == PlayState([a, a], Some(b));
    assert SkipTimes(st, 1) == once;
  }
}
