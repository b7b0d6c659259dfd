/** The participant side of a room: the case-insensitive duplicate check on
    join, removal by `_id` and the disconnect sweep's removal by `id`. */
module Roster {
  import opened Common
  import opened Model
  import Text
  import Seqs

  /** Some participant's name equals `user` ignoring case. */
  predicate HasUser(ps: seq<Participant>, user: string) {
    exists i :: 0 <= i < |ps| && Text.EqualsIgnoreCase(ps[i].user, user)
  }

  /** `participants.some(p => p.user.toLowerCase() === user.toLowerCase())`,
      scanned from the front. */
  method ContainsUser(ps: seq<Participant>, user: string) returns (found: bool)
    ensures found <==> HasUser(ps, user)
  {
    found := false;
    var i := 0;
    while i < |ps| && !found
      invariant 0 <= i <= |ps|
      invariant found <==> exists k :: 0 <= k < i && Text.EqualsIgnoreCase(ps[k].user, user)
    {
      found := Text.EqualsIgnoreCase(ps[i].user, user);
      i := i + 1;
    }
  }

  function FoldedName(p: Participant): string { Text.Lower(p.user) }

  /** No two participants' names are equal ignoring case. */
  predicate UniqueNames(ps: seq<Participant>) {
    Seqs.DistinctBy(ps, FoldedName)
  }

  /** The roster after `addParticipant`: `{user}` goes to the end under the
      `_id` the store mints, unless the name is already taken ignoring case. */
  function Join(ps: seq<Participant>, user: string, key: ParticipantKey): (r: seq<Participant>)
    ensures HasUser(r, user)
    ensures |r| == |ps| + (if HasUser(ps, user) then 0 else 1)
    ensures r[..|ps|] == ps
    ensures |r| > |ps| ==> r[|ps|] == Participant(key, user, Unassigned, None)
  {
    if HasUser(ps, user) then ps
    else
      var r := ps + [Participant(key, user, Unassigned, None)];
      assert Text.EqualsIgnoreCase(r[|ps|].user, user);
      r
  }

  /** Joining keeps the names on a roster distinct ignoring case. */
  lemma JoinKeepsNamesUnique(ps: seq<Participant>, user: string, key: ParticipantKey)
    requires UniqueNames(ps)
    ensures UniqueNames(Join(ps, user, key))
  {
    var r := Join(ps, user, key);
    if !HasUser(ps, user) {
      forall i, j | 0 <= i < j < |r| ensures FoldedName(r[i]) != FoldedName(r[j]) {
        if j == |ps| {
          assert r[i] == ps[i];
          assert !Text.EqualsIgnoreCase(ps[i].user, user);
        } else {
          assert r[i] == ps[i] && r[j] == ps[j];
        }
      }
    }
  }

  /** "Alice" is on the roster, so "alice" (in any case) is turned away and
      the roster does not grow. */
  lemma JoinRejectsOtherCase(key: ParticipantKey, newKey: ParticipantKey)
    ensures Join([Participant(key, "Alice", Host, None)], "alice", newKey)
            == [Participant(key, "Alice", Host, None)]
  {
    var ps := [Participant(key, "Alice", Host, None)];
    assert Text.Lower("Alice") == "alice" == Text.Lower("alice");
    assert Text.EqualsIgnoreCase(ps[0].user, "alice");
  }

  function KeyIsNot(key: ParticipantKey): Participant -> bool {
    (p: Participant) => p.key != key
  }

  predicate HasKey(ps: seq<Participant>, key: ParticipantKey) {
    exists i :: 0 <= i < |ps| && ps[i].key == key
  }

  /** The roster after `removeParticipant`: `$pull` of every participant
      whose `_id` is `key`. */
  function RemoveKey(ps: seq<Participant>, key: ParticipantKey): (r: seq<Participant>)
    ensures !HasKey(r, key)
    ensures forall p :: p in r <==> p in ps && p.key != key
    ensures !HasKey(ps, key) ==> r == ps
  {
    var r := Seqs.Filter(ps, KeyIsNot(key));
    assert forall i :: 0 <= i < |r| ==> r[i] in r;
    if !HasKey(ps, key) then
      assert forall p :: p in ps ==> KeyIsNot(key)(p) by {
        forall p | p in ps ensures KeyIsNot(key)(p) {
          var i :| 0 <= i < |ps| && ps[i] == p;
        }
      }
      Seqs.FilterKeepsAll(ps, KeyIsNot(key));
      r
    else r
  }

  /** Removal by `_id` keeps the surviving participants in roster order:
      removing from a concatenation removes from each part. */
  lemma RemoveKeyKeepsOrder(a: seq<Participant>, b: seq<Participant>, key: ParticipantKey)
    ensures RemoveKey(a + b, key) == RemoveKey(a, key) + RemoveKey(b, key)
  {
    Seqs.FilterConcat(a, b, KeyIsNot(key));
  }

  /** Removing the participant a join just added gives back the roster as it
      was before the join. */
  lemma RemoveKeyUndoesJoin(ps: seq<Participant>, user: string, key: ParticipantKey)
    requires !HasKey(ps, key)
    ensures RemoveKey(Join(ps, user, key), key) == ps
  {
    if !HasUser(ps, user) {
      var p := Participant(key, user, Unassigned, None);
      RemoveKeyKeepsOrder(ps, [p], key);
      assert RemoveKey([p], key) == [];
      assert Join(ps, user, key) == ps + [p];
    }
  }

  /** Removing a participant keeps the names distinct ignoring case. */
  lemma RemoveKeyKeepsNamesUnique(ps: seq<Participant>, key: ParticipantKey)
    requires UniqueNames(ps)
    ensures UniqueNames(RemoveKey(ps, key))
  {
    Seqs.FilterKeepsDistinct(ps, KeyIsNot(key), FoldedName);
  }

  /** Some participant's stored `id` field is `socketId`
      (`participants: { $elemMatch: { id: socketId } }`). */
  predicate HasSocket(ps: seq<Participant>, socketId: string) {
    exists i :: 0 <= i < |ps| && ps[i].socketId == Some(socketId)
  }

  function SocketIsNot(socketId: string): Participant -> bool {
    (p: Participant) => p.socketId != Some(socketId)
  }

  /** The roster after `$pull: { participants: { id: socketId } }`. */
  function RemoveSocket(ps: seq<Participant>, socketId: string): (r: seq<Participant>)
    ensures !HasSocket(r, socketId)
    ensures forall p :: p in r <==> p in ps && p.socketId != Some(socketId)
    ensures !HasSocket(ps, socketId) ==> r == ps
  {
    var r := Seqs.Filter(ps, SocketIsNot(socketId));
    assert forall i :: 0 <= i < |r| ==> r[i] in r;
    if !HasSocket(ps, socketId) then
      assert forall p :: p in ps ==> SocketIsNot(socketId)(p) by {
        forall p | p in ps ensures SocketIsNot(socketId)(p) {
          var i :| 0 <= i < |ps| && ps[i] == p;
        }
      }
      Seqs.FilterKeepsAll(ps, SocketIsNot(socketId));
      r
    else r
  }

  /** `$pull` by connection id keeps the survivors in their stored order:
      removal distributes over concatenation. */
  lemma RemoveSocketKeepsOrder(a: seq<Participant>, b: seq<Participant>, socketId: string)
    ensures RemoveSocket(a + b, socketId) == RemoveSocket(a, socketId) + RemoveSocket(b, socketId)
  {
    Seqs.FilterConcat(a, b, SocketIsNot(socketId));
  }

  lemma RemoveSocketKeepsNamesUnique(ps: seq<Participant>, socketId: string)
    requires UniqueNames(ps)
    ensures UniqueNames(RemoveSocket(ps, socketId))
  {
    Seqs.FilterKeepsDistinct(ps, SocketIsNot(socketId), FoldedName);
  }

  /** `participants.find(p => p.user === user)`: the first participant whose
      name is exactly `user`. */
  function FindUser(ps: seq<Participant>, user: string): (r: Option<Participant>)
    ensures r.None? <==> forall p :: p in ps ==> p.user != user
    ensures r.Some? ==> r.value in ps && r.value.user == user
    ensures r.Some? ==> exists i :: 0 <= i < |ps| && ps[i] == r.value && forall k :: 0 <= k < i ==> ps[k].user != user
  {
    if ps == [] then None
    else if ps[0].user == user then Some(ps[0])
    else FindUser(ps[1..], user)
  }

  /** The participant a join appended is the one the exact-name lookup
      finds: no earlier name equals it, not even ignoring case. */
  lemma {:induction false} FindUserAfterJoin(ps: seq<Participant>, user: string, key: ParticipantKey)
    requires !HasUser(ps, user)
    ensures FindUser(Join(ps, user, key), user) == Some(Participant(key, user, Unassigned, None))
  {
    var p := Participant(key, user, Unassigned, None);
    var r := Join(ps, user, key);
    assert r == ps + [p] && r[|ps|] == p;
    forall k | 0 <= k < |ps| ensures r[k].user != user {
      assert !Text.EqualsIgnoreCase(ps[k].user, user);
    }
    var f := FindUser(r, user);
    assert f.Some?;
    var n :| 0 <= n < |r| && r[n] == f.value && forall k :: 0 <= k < n ==> r[k].user != user;
    assert n == |ps|;
  }
}
