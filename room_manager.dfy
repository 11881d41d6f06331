/**
 * The room registry of room_manager.py: rooms keyed by id, each holding an
 * insertion-ordered dict of players. Python dicts keep insertion order, so a
 * room's players are a sequence of (id, state) entries with distinct keys.
 */
module Rooms {
  import opened Common

  /** The dice request a player is waiting on (set by the turn loop). */
  datatype DiceModifier =
    | AbilityCheck(modifier: int, proficient: bool, reason: string, difficulty: Option<int>)
    | PlainRoll(reason: string, difficulty: Option<int>)

  /**
   * A player of a room. `scores` holds the six ability scores under their
   * lower-case names ("strength" … "charisma") once the character is
   * created, and nothing before.
   */
  datatype PlayerState = PlayerState(
    id: string, name: string, race: string, className: string,
    hp: int, gold: int, damage: int, level: int, magic1: int, magic2: int,
    diceRollNeeded: bool, diceType: Option<string>, diceModifier: Option<DiceModifier>,
    lastDiceRoll: Option<int>, scores: map<string, int>)

  /** One entry of a room's own message history. */
  datatype RoomMessage = RoomMessage(kind: string, message: string, playerName: Option<string>)

  type Players = seq<(string, PlayerState)>

  datatype RoomState = RoomState(
    roomId: string, hostId: string, players: Players, language: string,
    messageHistory: seq<RoomMessage>, inCombat: bool,
    enemyName: Option<string>, enemyHealth: Option<int>)

  // ---------------------------------------------------------------------------
  // The players dict

  function KeySet(ps: Players): set<string>
  {
    set e | e in ps :: e.0
  }

  predicate DistinctKeys(ps: Players)
  {
    forall i, j :: 0 <= i < j < |ps| ==> ps[i].0 != ps[j].0
  }

  /** `players.get(k)`. */
  function Lookup(ps: Players, k: string): (r: Option<PlayerState>)
    ensures r.Some? <==> k in KeySet(ps)
    ensures r.Some? ==> (k, r.value) in ps
  {
    if ps == [] then None
    else if ps[0].0 == k then Some(ps[0].1)
    else
      var r := Lookup(ps[1..], k);
      assert KeySet(ps) == {ps[0].0} + KeySet(ps[1..]) by {
        assert forall e :: e in ps <==> e == ps[0] || e in ps[1..];
      }
      r
  }

  /** `players[k] = v`: an existing key keeps its place, a new one goes last. */
  function Put(ps: Players, k: string, v: PlayerState): (r: Players)
  {
    if ps == [] then [(k, v)]
    else if ps[0].0 == k then [(k, v)] + ps[1..]
    else [ps[0]] + Put(ps[1..], k, v)
  }

  /** `del players[k]`: the other entries keep their order. */
  function Delete(ps: Players, k: string): (r: Players)
    ensures |r| <= |ps|
  {
    if ps == [] then []
    else if ps[0].0 == k then ps[1..]
    else [ps[0]] + Delete(ps[1..], k)
  }

  lemma KeySetCons(ps: Players)
    requires ps != []
    ensures KeySet(ps) == {ps[0].0} + KeySet(ps[1..])
  {
    assert forall e :: e in ps <==> e == ps[0] || e in ps[1..];
  }

  lemma HeadNotInTail(ps: Players)
    requires DistinctKeys(ps) && ps != []
    ensures ps[0].0 !in KeySet(ps[1..])
  {
    forall e | e in ps[1..] ensures e.0 != ps[0].0 {
      var j :| 0 <= j < |ps[1..]| && ps[1..][j] == e;
      assert ps[j + 1] == e;
    }
  }

  /** Reading back after `players[k] = v`. */
  lemma {:induction false} LookupPut(ps: Players, k: string, v: PlayerState, k2: string)
    ensures Lookup(Put(ps, k, v), k2) == if k2 == k then Some(v) else Lookup(ps, k2)
  {
    if ps != [] && ps[0].0 != k {
      LookupPut(ps[1..], k, v, k2);
    }
  }

  /** Assignment adds its key and keeps the keys distinct. */
  lemma {:induction false} PutKeys(ps: Players, k: string, v: PlayerState)
    requires DistinctKeys(ps)
    ensures KeySet(Put(ps, k, v)) == KeySet(ps) + {k}
    ensures DistinctKeys(Put(ps, k, v))
  {
    if ps != [] && ps[0].0 != k {
      PutKeys(ps[1..], k, v);
      var r := [ps[0]] + Put(ps[1..], k, v);
      KeySetCons(ps);
      KeySetCons(r);
      assert r[1..] == Put(ps[1..], k, v);
      HeadNotInTail(ps);
      forall i, j | 0 <= i < j < |r| ensures r[i].0 != r[j].0 {
        if i == 0 {
          assert r[j] in r[1..];
        } else {
          assert r[i] == r[1..][i - 1] && r[j] == r[1..][j - 1];
        }
      }
    } else if ps != [] {
      KeySetCons(ps);
      KeySetCons([(k, v)] + ps[1..]);
      assert ([(k, v)] + ps[1..])[1..] == ps[1..];
    }
  }

  /** Assigning to a present key: same length, same keys in the same places, and only that key reads back differently. */
  lemma PutPresent(ps: Players, k: string, v: PlayerState, k2: string)
    requires DistinctKeys(ps) && Lookup(ps, k).Some?
    ensures DistinctKeys(Put(ps, k, v)) && |Put(ps, k, v)| == |ps|
    ensures forall i :: 0 <= i < |ps| ==> Put(ps, k, v)[i].0 == ps[i].0
    ensures Lookup(Put(ps, k, v), k2) == if k2 == k then Some(v) else Lookup(ps, k2)
  {
    PutKeys(ps, k, v);
    PutOrder(ps, k, v);
    LookupPut(ps, k, v, k2);
  }

  /** Assigning to a present key keeps every key in its place; a new key goes last. */
  lemma {:induction false} PutOrder(ps: Players, k: string, v: PlayerState)
    ensures k in KeySet(ps) ==> (|Put(ps, k, v)| == |ps| &&
              forall i :: 0 <= i < |ps| ==> Put(ps, k, v)[i].0 == ps[i].0)
    ensures k !in KeySet(ps) ==> Put(ps, k, v) == ps + [(k, v)]
  {
    if ps != [] {
      KeySetCons(ps);
      if ps[0].0 != k {
        PutOrder(ps[1..], k, v);
        var r := [ps[0]] + Put(ps[1..], k, v);
        if k in KeySet(ps) {
          forall i | 0 <= i < |ps| ensures r[i].0 == ps[i].0 {
            if i > 0 {
              assert r[i] == Put(ps[1..], k, v)[i - 1];
            }
          }
        } else {
          assert ps == [ps[0]] + ps[1..];
        }
      }
    }
  }

  /** Deleting a key removes exactly that key and keeps distinctness. */
  lemma {:induction false} DeleteKeys(ps: Players, k: string)
    requires DistinctKeys(ps)
    ensures KeySet(Delete(ps, k)) == KeySet(ps) - {k}
    ensures DistinctKeys(Delete(ps, k))
    ensures forall k2 :: k2 != k ==> Lookup(Delete(ps, k), k2) == Lookup(ps, k2)
    ensures k in KeySet(ps) ==> |Delete(ps, k)| == |ps| - 1
  {
    if ps == [] {
    } else {
      KeySetCons(ps);
      assert DistinctKeys(ps[1..]);
      HeadNotInTail(ps);
      if ps[0].0 != k {
        DeleteKeys(ps[1..], k);
        var r := [ps[0]] + Delete(ps[1..], k);
        KeySetCons(r);
        assert r[1..] == Delete(ps[1..], k);
        assert DistinctKeys(r) by {
          forall i, j | 0 <= i < j < |r| ensures r[i].0 != r[j].0 {
            if i == 0 {
              assert r[j] in r[1..];
              assert r[j].0 in KeySet(r[1..]);
            } else {
              assert r[i] == r[1..][i - 1] && r[j] == r[1..][j - 1];
            }
          }
        }
      }
    }
  }

  /** After the host leaves a non-empty room, the first remaining entry is another player. */
  lemma NewHostRemains(ps: Players, k: string)
    requires DistinctKeys(ps) && Delete(ps, k) != []
    ensures Delete(ps, k)[0].0 in KeySet(ps) && Delete(ps, k)[0].0 != k
  {
    DeleteKeys(ps, k);
    assert Delete(ps, k)[0] in Delete(ps, k);
  }

  /** A freshly joined player: empty race and class, every number zero. */
  function NewPlayer(id: string, name: string): (p: PlayerState)
    ensures p.id == id && p.name == name && p.race == "" && p.className == ""
    ensures p.hp == 0 && p.gold == 0 && p.damage == 0 && p.level == 0 && p.magic1 == 0 && p.magic2 == 0
    ensures p.scores == map[]
  {
    PlayerState(id, name, "", "", 0, 0, 0, 0, 0, 0, false, None, None, None, map[])
  }

  function NewRoom(roomId: string, hostId: string, language: string): (r: RoomState)
    ensures r.roomId == roomId && r.hostId == hostId && r.language == language && r.players == []
  {
    RoomState(roomId, hostId, [], language, [], false, None, None)
  }

  class RoomManager {
    var rooms: map<string, RoomState>

    predicate Valid()
      reads this
    {
      forall id :: id in rooms ==> rooms[id].roomId == id && DistinctKeys(rooms[id].players)
    }

    constructor ()
      ensures Valid() && rooms == map[]
    {
      rooms := map[];
    }

    /** A new room under the first 8 characters of the uuid; an existing room with that id is replaced. */
    method CreateRoom(hostId: string, language: string, uuid: string) returns (roomId: string)
      requires Valid() && |uuid| >= 8
      modifies this
      ensures Valid()
      ensures roomId == uuid[..8] && |roomId| == 8
      ensures rooms == old(rooms)[roomId := NewRoom(roomId, hostId, language)]
    {
      roomId := uuid[..8];
      rooms := rooms[roomId := NewRoom(roomId, hostId, language)];
    }

    /** Adds the player unless already present; an unknown room gives None. */
    method JoinRoom(roomId: string, playerId: string, playerName: string) returns (r: Option<RoomState>)
      requires Valid()
      modifies this
      ensures Valid()
      ensures roomId !in old(rooms) ==> r.None? && rooms == old(rooms)
      ensures roomId in old(rooms) ==>
        var room := old(rooms)[roomId];
        var joined := if playerId in KeySet(room.players) then room
                      else room.(players := room.players + [(playerId, NewPlayer(playerId, playerName))]);
        r == Some(joined) && rooms == old(rooms)[roomId := joined]
    {
      if roomId !in rooms {
        return None;
      }
      var room := rooms[roomId];
      if Lookup(room.players, playerId).None? {
        PutKeys(room.players, playerId, NewPlayer(playerId, playerName));
        PutOrder(room.players, playerId, NewPlayer(playerId, playerName));
        room := room.(players := Put(room.players, playerId, NewPlayer(playerId, playerName)));
        rooms := rooms[roomId := room];
      }
      r := Some(room);
    }

    /**
     * Removes the player. When the host leaves, the first remaining player
     * becomes host, or the room is deleted when nobody remains.
     */
    method LeaveRoom(roomId: string, playerId: string) returns (ok: bool)
      requires Valid()
      modifies this
      ensures Valid()
      ensures ok <==> roomId in old(rooms) && playerId in KeySet(old(rooms)[roomId].players)
      ensures !ok ==> rooms == old(rooms)
      ensures ok ==>
        var room := old(rooms)[roomId];
        var rest := Delete(room.players, playerId);
        if playerId != room.hostId then rooms == old(rooms)[roomId := room.(players := rest)]
        else if rest != [] then rooms == old(rooms)[roomId := room.(players := rest, hostId := rest[0].0)]
        else rooms == old(rooms) - {roomId}
    {
      if roomId !in rooms {
        return false;
      }
      var room := rooms[roomId];
      if Lookup(room.players, playerId).None? {
        return false;
      }
      DeleteKeys(room.players, playerId);
      room := room.(players := Delete(room.players, playerId));
      rooms := rooms[roomId := room];
      if playerId == room.hostId {
        if room.players != [] {
          room := room.(hostId := room.players[0].0);
          rooms := rooms[roomId := room];
        } else {
          rooms := rooms - {roomId};
        }
      }
      ok := true;
    }

    function GetRoom(roomId: string): (r: Option<RoomState>)
      reads this
      ensures r.Some? <==> roomId in rooms
      ensures r.Some? ==> r.value == rooms[roomId]
    {
      if roomId in rooms then Some(rooms[roomId]) else None
    }

    /** Replaces a player already in the room, keyed by the state's own id. */
    method UpdatePlayer(roomId: string, player: PlayerState) returns (ok: bool)
      requires Valid()
      modifies this
      ensures Valid()
      ensures ok <==> roomId in old(rooms) && player.id in KeySet(old(rooms)[roomId].players)
      ensures !ok ==> rooms == old(rooms)
      ensures ok ==>
        var room := old(rooms)[roomId];
        rooms == old(rooms)[roomId := room.(players := Put(room.players, player.id, player))]
    {
      if roomId !in rooms {
        return false;
      }
      var room := rooms[roomId];
      if Lookup(room.players, player.id).Some? {
        PutKeys(room.players, player.id, player);
        rooms := rooms[roomId := room.(players := Put(room.players, player.id, player))];
        return true;
      }
      return false;
    }

    /** Stores a whole room under its id, keeping the language already stored. */
    method UpdateRoom(room: RoomState) returns (ok: bool)
      requires Valid() && DistinctKeys(room.players)
      modifies this
      ensures Valid()
      ensures ok <==> room.roomId in old(rooms)
      ensures !ok ==> rooms == old(rooms)
      ensures ok ==> rooms == old(rooms)[room.roomId := room.(language := old(rooms)[room.roomId].language)]
    {
      if room.roomId !in rooms {
        return false;
      }
      var stored := room.(language := rooms[room.roomId].language);
      rooms := rooms[room.roomId := stored];
      ok := true;
    }
  }
}
