/**
 * The turn-loop bookkeeping of app.py, taken out of its routes: the
 * per-room message log with its poll filter, the sparse player deltas, the
 * dice-request fields, the combat-result update and the effective ability
 * scores. The language model's response arrives as a value.
 */
module App {
  import opened Common
  import Text
  import Rooms

  type PlayerState = Rooms.PlayerState
  type Players = Rooms.Players
  type RoomState = Rooms.RoomState

  /** One entry of the module-level `room_messages` log. */
  datatype LogEntry = LogEntry(id: int, message: string, kind: string, playerName: Option<string>, detail: Option<string>)

  const LogLimit: nat := 100
  const DuplicateWindow: nat := 5
  const PollLimit: nat := 50

  // ---------------------------------------------------------------------------
  // Message log

  /** The entries the duplicate check looks at: the last five. */
  function Window(log: seq<LogEntry>): (w: seq<LogEntry>)
    ensures |w| <= |log| && |w| <= DuplicateWindow && w == log[|log| - |w|..]
  {
    KeepLast(log, DuplicateWindow)
  }

  /** A 'dm' entry carrying `message`: what the duplicate check looks for. */
  predicate IsDuplicate(e: LogEntry, message: string)
  {
    e.kind == "dm" && e.message == message
  }

  /** The id of the first 'dm' entry carrying `message`, if any. */
  function FirstDuplicate(w: seq<LogEntry>, message: string): (r: Option<int>)
    ensures r.None? <==> forall i :: 0 <= i < |w| ==> !IsDuplicate(w[i], message)
    ensures r.Some? ==> exists i :: 0 <= i < |w| && IsDuplicate(w[i], message) && w[i].id == r.value &&
                                    forall j :: 0 <= j < i ==> !IsDuplicate(w[j], message)
  {
    if w == [] then None
    else if IsDuplicate(w[0], message) then Some(w[0].id)
    else
      var r := FirstDuplicate(w[1..], message);
      assert forall i :: 1 <= i < |w| ==> w[i] == w[1..][i - 1];
      assert r.Some? ==> exists i :: 1 <= i < |w| && IsDuplicate(w[i], message) && w[i].id == r.value &&
                                     forall j :: 0 <= j < i ==> !IsDuplicate(w[j], message) by {
        if r.Some? {
          var i :| 0 <= i < |w[1..]| && IsDuplicate(w[1..][i], message) && w[1..][i].id == r.value &&
                   forall j :: 0 <= j < i ==> !IsDuplicate(w[1..][j], message);
          assert forall j :: 0 <= j < i + 1 ==> !IsDuplicate(w[j], message) by {
            forall j | 0 <= j < i + 1 ensures !IsDuplicate(w[j], message) {
              if j > 0 { assert w[j] == w[1..][j - 1]; }
            }
          }
        }
      }
      r
  }

  /** The `room_messages` entry built for a new message; the player name is kept only for 'player' messages. */
  function NewEntry(id: int, message: string, kind: string, playerName: Option<string>, detail: Option<string>): LogEntry
  {
    LogEntry(id, message, kind, if kind == "player" then playerName else None, detail)
  }

  /** The positions from `i` on, in increasing order, of the entries of the log with an id above `lastId`. */
  function NewerPositions(log: seq<LogEntry>, lastId: int, i: nat): (ps: seq<nat>)
    requires i <= |log|
    ensures forall k :: 0 <= k < |ps| ==> i <= ps[k] < |log| && log[ps[k]].id > lastId
    decreases |log| - i
  {
    if i == |log| then []
    else
      var rest := NewerPositions(log, lastId, i + 1);
      if log[i].id > lastId then [i] + rest else rest
  }

  /** The positions increase along the sequence. */
  lemma {:induction false} NewerPositionsIncrease(log: seq<LogEntry>, lastId: int, i: nat)
    requires i <= |log|
    ensures forall k, l :: 0 <= k < l < |NewerPositions(log, lastId, i)| ==>
              NewerPositions(log, lastId, i)[k] < NewerPositions(log, lastId, i)[l]
    decreases |log| - i
  {
    if i < |log| {
      NewerPositionsIncrease(log, lastId, i + 1);
      var rest, ps := NewerPositions(log, lastId, i + 1), NewerPositions(log, lastId, i);
      if log[i].id > lastId {
        assert ps == [i] + rest;
        forall k, l | 0 <= k < l < |ps| ensures ps[k] < ps[l] {
          assert ps[l] == rest[l - 1];
          if k > 0 {
            assert ps[k] == rest[k - 1];
          }
        }
      }
    }
  }

  /** Every position from `i` on whose entry has a newer id is among the positions. */
  lemma {:induction false} NewerPositionsComplete(log: seq<LogEntry>, lastId: int, i: nat)
    requires i <= |log|
    ensures forall j :: i <= j < |log| && log[j].id > lastId ==> j in NewerPositions(log, lastId, i)
    decreases |log| - i
  {
    if i < |log| {
      NewerPositionsComplete(log, lastId, i + 1);
    }
  }

  /** The entries of the log with an id above `lastId`, in log order. */
  function NewerThan(log: seq<LogEntry>, lastId: int): (r: seq<LogEntry>)
    ensures |r| <= |log|
    ensures forall e :: e in r <==> e in log && e.id > lastId
  {
    if log == [] then []
    else
      var rest := NewerThan(log[1..], lastId);
      assert forall e :: e in log <==> e == log[0] || e in log[1..];
      if log[0].id > lastId then [log[0]] + rest else rest
  }

  /**
   * The poll filter on the entries from `i` on is exactly the entries at
   * `NewerPositions`: it keeps log order and takes each entry as often as
   * the log holds it.
   */
  lemma {:induction false} NewerThanPositions(log: seq<LogEntry>, lastId: int, i: nat)
    requires i <= |log|
    ensures |NewerThan(log[i..], lastId)| == |NewerPositions(log, lastId, i)|
    ensures forall k :: 0 <= k < |NewerPositions(log, lastId, i)| ==>
              NewerThan(log[i..], lastId)[k] == log[NewerPositions(log, lastId, i)[k]]
    decreases |log| - i
  {
    if i < |log| {
      NewerThanPositions(log, lastId, i + 1);
      var t, rest, ps := log[i..], NewerThan(log[i + 1..], lastId), NewerPositions(log, lastId, i + 1);
      assert t[1..] == log[i + 1..] && t[0] == log[i];
      if log[i].id > lastId {
        assert NewerThan(t, lastId) == [log[i]] + rest;
        assert NewerPositions(log, lastId, i) == [i] + ps;
      } else {
        assert NewerThan(t, lastId) == rest;
        assert NewerPositions(log, lastId, i) == ps;
      }
    }
  }

  /** When ids never decrease along the log, the poll filter gives exactly a suffix of it. */
  lemma {:induction false} NewerThanSuffix(log: seq<LogEntry>, lastId: int)
    requires forall i, j :: 0 <= i < j < |log| ==> log[i].id <= log[j].id
    ensures NewerThan(log, lastId) == log[|log| - |NewerThan(log, lastId)|..]
  {
    if log != [] {
      if log[0].id > lastId {
        forall e | e in log ensures e.id > lastId {
          var j :| 0 <= j < |log| && log[j] == e;
        }
        NewerThanAll(log, lastId);
      } else {
        NewerThanSuffix(log[1..], lastId);
        var r := NewerThan(log[1..], lastId);
        assert log[1..][|log| - 1 - |r|..] == log[|log| - |r|..];
      }
    }
  }

  lemma {:induction false} NewerThanAll(log: seq<LogEntry>, lastId: int)
    requires forall e :: e in log ==> e.id > lastId
    ensures NewerThan(log, lastId) == log
  {
    if log != [] {
      assert forall e :: e in log[1..] ==> e in log;
      NewerThanAll(log[1..], lastId);
      assert log == [log[0]] + log[1..];
    }
  }

  /**
   * As written, a new entry's id is the log's length + 1, which is 101 for
   * every message once the log holds 100 entries: a client that has seen
   * id 101 polls past the new message.
   */
  lemma RepeatedIdAsWritten(log: seq<LogEntry>, message: string, kind: string, playerName: Option<string>,
                            detail: Option<string>)
    requires |log| == LogLimit && forall e :: e in log ==> e.id <= LogLimit + 1
    ensures var log' := KeepLast(log + [NewEntry(|log| + 1, message, kind, playerName, detail)], LogLimit);
            log'[|log'| - 1] == NewEntry(LogLimit + 1, message, kind, playerName, detail) &&
            NewerThan(log', LogLimit + 1) == []
  {
    var e := NewEntry(|log| + 1, message, kind, playerName, detail);
    KeepLastBounded(log, e, LogLimit);
    var log' := KeepLast(log + [e], LogLimit);
    assert forall x :: x in log' ==> x in log || x == e;
    if NewerThan(log', LogLimit + 1) != [] {
      assert NewerThan(log', LogLimit + 1)[0] in NewerThan(log', LogLimit + 1);
    }
  }

  /** The largest id in the log, 0 for an empty one. */
  function MaxId(log: seq<LogEntry>): (m: int)
    ensures forall e :: e in log ==> e.id <= m
    ensures log != [] ==> exists e :: e in log && e.id == m
    ensures log == [] ==> m == 0
  {
    if log == [] then 0
    else if |log| == 1 then log[0].id
    else
      var m := MaxId(log[1..]);
      assert forall e :: e in log <==> e == log[0] || e in log[1..];
      Max(log[0].id, m)
  }

  /** The corrected next id: one above every id in the log, whatever it has dropped. */
  function NextMessageId(log: seq<LogEntry>): (id: int)
    ensures forall e :: e in log ==> e.id < id
  {
    MaxId(log) + 1
  }

  /** With the corrected id, a client that has seen every entry of the log gets exactly the new one on its next poll. */
  lemma NextIdReachesPoll(log: seq<LogEntry>, message: string, kind: string, playerName: Option<string>,
                          detail: Option<string>)
    requires |log| <= LogLimit
    ensures var e := NewEntry(NextMessageId(log), message, kind, playerName, detail);
            NewerThan(KeepLast(log + [e], LogLimit), MaxId(log)) == [e]
  {
    var e := NewEntry(NextMessageId(log), message, kind, playerName, detail);
    KeepLastBounded(log, e, LogLimit);
    var log' := KeepLast(log + [e], LogLimit);
    var prefix := log'[..|log'| - 1];
    assert log' == prefix + [e];
    assert forall x :: x in prefix ==> x in log;
    NewerThanNone(prefix, MaxId(log));
    NewerThanAppend(prefix, e, MaxId(log));
  }

  /** With the corrected id, ids keep increasing along the log, however many entries the cap drops. */
  lemma NextIdKeepsOrder(log: seq<LogEntry>, message: string, kind: string, playerName: Option<string>,
                         detail: Option<string>)
    requires |log| <= LogLimit
    requires forall i, j :: 0 <= i < j < |log| ==> log[i].id < log[j].id
    ensures var log' := KeepLast(log + [NewEntry(NextMessageId(log), message, kind, playerName, detail)], LogLimit);
            forall i, j :: 0 <= i < j < |log'| ==> log'[i].id < log'[j].id
  {
    var e := NewEntry(NextMessageId(log), message, kind, playerName, detail);
    KeepLastBounded(log, e, LogLimit);
    var log' := KeepLast(log + [e], LogLimit);
    forall i, j | 0 <= i < j < |log'| ensures log'[i].id < log'[j].id {
      if j == |log'| - 1 {
        assert log'[i] in log;
      } else if |log| == LogLimit {
        assert log'[i] == log[i + 1] && log'[j] == log[j + 1];
      } else {
        assert log'[i] == log[i] && log'[j] == log[j];
      }
    }
  }

  /** Concatenation regroups freely. */
  lemma ConcatAssoc(a: seq<LogEntry>, b: seq<LogEntry>, c: seq<LogEntry>)
    ensures a + (b + c) == (a + b) + c
  {
  }

  /** A log with no id above `lastId` polls to nothing. */
  lemma NewerThanNone(log: seq<LogEntry>, lastId: int)
    requires forall e :: e in log ==> e.id <= lastId
    ensures NewerThan(log, lastId) == []
  {
    if NewerThan(log, lastId) != [] {
      assert NewerThan(log, lastId)[0] in NewerThan(log, lastId);
    }
  }

  /** Appending an entry to the log appends it to the poll exactly when its id is above `lastId`. */
  lemma {:induction false} NewerThanAppend(log: seq<LogEntry>, e: LogEntry, lastId: int)
    ensures NewerThan(log + [e], lastId) == NewerThan(log, lastId) + (if e.id > lastId then [e] else [])
  {
    var tail := if e.id > lastId then [e] else [];
    if log == [] {
      assert [] + [e] == [e];
    } else {
      var l := log + [e];
      assert l[0] == log[0] && l[1..] == log[1..] + [e];
      NewerThanAppend(log[1..], e, lastId);
      var head := if log[0].id > lastId then [log[0]] else [];
      assert NewerThan(l, lastId) == head + (NewerThan(log[1..], lastId) + tail);
      assert NewerThan(log, lastId) == head + NewerThan(log[1..], lastId);
      ConcatAssoc(head, NewerThan(log[1..], lastId), tail);
    }
  }

  // ---------------------------------------------------------------------------
  // Player deltas

  /** One entry of `players_update`: the target id and the fields present. */
  datatype PlayerUpdate = PlayerUpdate(
    playerId: Option<string>, hp: Option<int>, gold: Option<int>, damage: Option<int>,
    level: Option<int>, magic1: Option<int>, magic2: Option<int>)

  function Or<T>(o: Option<T>, d: T): T
  {
    match o case Some(v) => v case None => d
  }

  /** Writes the fields present in `u`; `full` adds level and both slot counts to hp, gold and damage. */
  function ApplyFields(p: PlayerState, u: PlayerUpdate, full: bool): (q: PlayerState)
  {
    var q := p.(hp := Or(u.hp, p.hp), gold := Or(u.gold, p.gold), damage := Or(u.damage, p.damage));
    if full then q.(level := Or(u.level, p.level), magic1 := Or(u.magic1, p.magic1), magic2 := Or(u.magic2, p.magic2))
    else q
  }

  /** One delta: a missing, empty or unknown player id skips it. */
  function ApplyOne(ps: Players, u: PlayerUpdate, full: bool): Players
  {
    match u.playerId
    case None => ps
    case Some(pid) =>
      if pid == "" then ps
      else match Rooms.Lookup(ps, pid)
        case None => ps
        case Some(p) => Rooms.Put(ps, pid, ApplyFields(p, u, full))
  }

  /** The deltas in list order. */
  function ApplyAll(ps: Players, us: seq<PlayerUpdate>, full: bool): Players
    decreases |us|
  {
    if us == [] then ps else ApplyAll(ApplyOne(ps, us[0], full), us[1..], full)
  }

  /** The loop over `players_update`. */
  method ApplyPlayerUpdates(ps: Players, us: seq<PlayerUpdate>, full: bool) returns (r: Players)
    ensures r == ApplyAll(ps, us, full)
  {
    r := ps;
    var i := 0;
    while i < |us|
      invariant 0 <= i <= |us|
      invariant ApplyAll(r, us[i..], full) == ApplyAll(ps, us, full)
    {
      assert us[i..][1..] == us[i + 1..];
      r := ApplyOne(r, us[i], full);
      i := i + 1;
    }
  }

  /** A delta never adds or removes a player, nor moves one. */
  lemma ApplyOneKeys(ps: Players, u: PlayerUpdate, full: bool)
    requires Rooms.DistinctKeys(ps)
    ensures var r := ApplyOne(ps, u, full);
      Rooms.DistinctKeys(r) && |r| == |ps| && forall i :: 0 <= i < |ps| ==> r[i].0 == ps[i].0
  {
    if u.playerId.Some? && u.playerId.value != "" && Rooms.Lookup(ps, u.playerId.value).Some? {
      var pid := u.playerId.value;
      var p := Rooms.Lookup(ps, pid).value;
      Rooms.PutKeys(ps, pid, ApplyFields(p, u, full));
      Rooms.PutOrder(ps, pid, ApplyFields(p, u, full));
    }
  }

  /** The deltas keep the room's players, in order. */
  lemma {:induction false} ApplyAllKeys(ps: Players, us: seq<PlayerUpdate>, full: bool)
    requires Rooms.DistinctKeys(ps)
    ensures var r := ApplyAll(ps, us, full);
      Rooms.DistinctKeys(r) && |r| == |ps| && forall i :: 0 <= i < |ps| ==> r[i].0 == ps[i].0
    decreases |us|
  {
    if us != [] {
      ApplyOneKeys(ps, us[0], full);
      ApplyAllKeys(ApplyOne(ps, us[0], full), us[1..], full);
    }
  }

  /** A player that no delta names is left exactly as it was. */
  lemma {:induction false} ApplyAllUntargeted(ps: Players, us: seq<PlayerUpdate>, full: bool, pid: string)
    requires forall i :: 0 <= i < |us| ==> us[i].playerId != Some(pid)
    ensures Rooms.Lookup(ApplyAll(ps, us, full), pid) == Rooms.Lookup(ps, pid)
    decreases |us|
  {
    if us != [] {
      var u := us[0];
      if u.playerId.Some? && u.playerId.value != "" && Rooms.Lookup(ps, u.playerId.value).Some? {
        var p := Rooms.Lookup(ps, u.playerId.value).value;
        Rooms.LookupPut(ps, u.playerId.value, ApplyFields(p, u, full), pid);
      }
      ApplyAllUntargeted(ApplyOne(ps, u, full), us[1..], full, pid);
    }
  }

  /** The fields a delta may touch: everything else of every player stays. */
  predicate SameExceptStats(p: PlayerState, q: PlayerState, full: bool)
  {
    q == p.(hp := q.hp, gold := q.gold, damage := q.damage) ||
    (full && q == p.(hp := q.hp, gold := q.gold, damage := q.damage, level := q.level, magic1 := q.magic1, magic2 := q.magic2))
  }

  /** `game_action`'s deltas (full == false) never touch level or slots; `process_roll`'s touch only the six stats. */
  lemma {:induction false} ApplyAllFields(ps: Players, us: seq<PlayerUpdate>, full: bool, pid: string)
    requires Rooms.Lookup(ps, pid).Some?
    ensures Rooms.Lookup(ApplyAll(ps, us, full), pid).Some?
    ensures SameExceptStats(Rooms.Lookup(ps, pid).value, Rooms.Lookup(ApplyAll(ps, us, full), pid).value, full)
    decreases |us|
  {
    if us != [] {
      var u := us[0];
      var ps1 := ApplyOne(ps, u, full);
      if u.playerId.Some? && u.playerId.value != "" && Rooms.Lookup(ps, u.playerId.value).Some? {
        var p := Rooms.Lookup(ps, u.playerId.value).value;
        Rooms.LookupPut(ps, u.playerId.value, ApplyFields(p, u, full), pid);
      }
      ApplyAllFields(ps1, us[1..], full, pid);
      var a, b, c := Rooms.Lookup(ps, pid).value, Rooms.Lookup(ps1, pid).value, Rooms.Lookup(ApplyAll(ps, us, full), pid).value;
      assert SameExceptStats(a, b, full);
      assert SameExceptStats(b, c, full);
    }
  }

  // ---------------------------------------------------------------------------
  // Dice requests, combat results

  /** The model's `dice_roll_request`; absent keys are None. */
  datatype DiceRequest = DiceRequest(
    abilityModifier: Option<string>, proficient: bool, reason: string,
    difficulty: Option<int>, diceType: Option<string>)

  /**
   * The dice block of `game_action` raises KeyError: an ability check names
   * an ability whose lower-cased name is not among the player's scores.
   */
  predicate DiceKeyError(p: PlayerState, required: bool, req: DiceRequest)
  {
    required && req.abilityModifier.Some? && req.abilityModifier.value != "" &&
    Text.Lower(req.abilityModifier.value) !in p.scores
  }

  /**
   * The dice block of `game_action`. An ability check reads the named
   * score and stores `modifierOf` of it; on KeyError the player keeps what
   * was written before the lookup raised.
   */
  function DiceBookkeeping(p: PlayerState, required: bool, req: DiceRequest, modifierOf: int -> int): (q: PlayerState)
    ensures q == p.(diceRollNeeded := q.diceRollNeeded, diceType := q.diceType, diceModifier := q.diceModifier)
    ensures q.diceRollNeeded == required
    ensures !required ==> q.diceType.None? && q.diceModifier.None?
    ensures DiceKeyError(p, required, req) ==> q.diceType == Some("d20") && q.diceModifier == p.diceModifier
    ensures required && req.abilityModifier.Some? && req.abilityModifier.value != "" && !DiceKeyError(p, required, req) ==>
      q.diceType == Some("d20") &&
      q.diceModifier == Some(Rooms.AbilityCheck(modifierOf(p.scores[Text.Lower(req.abilityModifier.value)]),
                                                req.proficient, req.reason, req.difficulty))
    ensures required && (req.abilityModifier.None? || req.abilityModifier.value == "") ==>
      q.diceType == Some(Or(req.diceType, "d20")) && q.diceModifier.Some? && q.diceModifier.value.PlainRoll?
  {
    if !required then
      p.(diceRollNeeded := false, diceType := None, diceModifier := None)
    else if req.abilityModifier.Some? && req.abilityModifier.value != "" then
      var name := Text.Lower(req.abilityModifier.value);
      if name !in p.scores then p.(diceRollNeeded := true, diceType := Some("d20"))
      else
        p.(diceRollNeeded := true, diceType := Some("d20"),
           diceModifier := Some(Rooms.AbilityCheck(modifierOf(p.scores[name]), req.proficient, req.reason, req.difficulty)))
    else
      p.(diceRollNeeded := true, diceType := Some(Or(req.diceType, "d20")),
         diceModifier := Some(Rooms.PlainRoll(req.reason, req.difficulty)))
  }

  /** `combat_started` only ever sets the flag. */
  function CombatStarted(room: RoomState, started: bool): (r: RoomState)
    ensures started ==> r == room.(inCombat := true)
    ensures !started ==> r == room
  {
    if started then room.(inCombat := true) else room
  }

  /**
   * The combat-result block of `process_roll`: a non-zero `damage_dealt`
   * lowers a non-zero enemy health; at or below 0 the fight is over.
   */
  function ApplyCombatResult(room: RoomState, damageDealt: Option<int>): (r: RoomState)
    ensures (damageDealt.None? || damageDealt.value == 0 || room.enemyHealth.None? || room.enemyHealth.value == 0) ==> r == room
    ensures damageDealt.Some? && damageDealt.value != 0 && room.enemyHealth.Some? && room.enemyHealth.value != 0 ==>
      var h := room.enemyHealth.value - damageDealt.value;
      if h <= 0 then r == room.(inCombat := false, enemyName := None, enemyHealth := None)
      else r == room.(enemyHealth := Some(h))
  {
    match (damageDealt, room.enemyHealth)
    case (Some(d), Some(h)) =>
      if d == 0 || h == 0 then room
      else if h - d <= 0 then room.(inCombat := false, enemyName := None, enemyHealth := None)
      else room.(enemyHealth := Some(h - d))
    case _ => room
  }

  /** What the routes read from the model's structured response. */
  datatype ActionResponse = ActionResponse(
    playerUpdateRequired: bool, playersUpdate: seq<PlayerUpdate>,
    diceRollRequired: bool, diceRollRequest: DiceRequest, combatStarted: bool)

  datatype RollResponse = RollResponse(playersUpdate: seq<PlayerUpdate>, damageDealt: Option<int>)

  /** The dice block of `game_action` raises KeyError for the acting player. */
  predicate ActionKeyError(room: RoomState, playerId: string, resp: ActionResponse)
    requires Rooms.Lookup(room.players, playerId).Some?
  {
    DiceKeyError(Rooms.Lookup(room.players, playerId).value, resp.diceRollRequired, resp.diceRollRequest)
  }

  /**
   * The state blocks of `game_action` applied to the room, for the acting
   * player. The room and its players are changed in place, so what was
   * written before a KeyError stays; the combat flag comes after it.
   */
  function GameActionEffect(room: RoomState, playerId: string, resp: ActionResponse, modifierOf: int -> int): (r: RoomState)
    requires Rooms.Lookup(room.players, playerId).Some?
  {
    var room1 := room.(players := ActionPlayersWithDice(room, playerId, resp, modifierOf));
    if ActionKeyError(room, playerId, resp) then room1 else CombatStarted(room1, resp.combatStarted)
  }

  /** The players after `game_action`'s deltas and the acting player's dice block. */
  function ActionPlayersWithDice(room: RoomState, playerId: string, resp: ActionResponse, modifierOf: int -> int): Players
  {
    var ps := ActionPlayers(room, resp);
    match Rooms.Lookup(ps, playerId)
    case Some(p) => Rooms.Put(ps, playerId, DiceBookkeeping(p, resp.diceRollRequired, resp.diceRollRequest, modifierOf))
    case None => ps
  }

  /** The state blocks of `process_roll`: full deltas, the combat result, and the roll cleared. */
  function ProcessRollEffect(room: RoomState, playerId: string, resp: RollResponse): (r: RoomState)
    requires Rooms.Lookup(room.players, playerId).Some?
  {
    var ps := ApplyAll(room.players, resp.playersUpdate, true);
    var room1 := ApplyCombatResult(room.(players := ps), resp.damageDealt);
    var ps' := match Rooms.Lookup(room1.players, playerId)
      case Some(p) => Rooms.Put(room1.players, playerId, p.(lastDiceRoll := None))
      case None => room1.players;
    room1.(players := ps')
  }

  /** The players after `game_action`'s deltas, before the dice block. */
  function ActionPlayers(room: RoomState, resp: ActionResponse): Players
  {
    if resp.playerUpdateRequired then ApplyAll(room.players, resp.playersUpdate, false) else room.players
  }

  lemma ActionPlayersShape(room: RoomState, resp: ActionResponse, pid: string)
    requires Rooms.DistinctKeys(room.players) && Rooms.Lookup(room.players, pid).Some?
    ensures var ps := ActionPlayers(room, resp);
      Rooms.DistinctKeys(ps) && |ps| == |room.players| &&
      (forall i :: 0 <= i < |ps| ==> ps[i].0 == room.players[i].0) &&
      Rooms.Lookup(ps, pid).Some? && SameExceptStats(Rooms.Lookup(room.players, pid).value, Rooms.Lookup(ps, pid).value, false)
  {
    if resp.playerUpdateRequired {
      ApplyAllKeys(room.players, resp.playersUpdate, false);
      ApplyAllFields(room.players, resp.playersUpdate, false, pid);
    }
  }

  /** `game_action` never changes a room's players or their order, any level or slot count, nor ends combat. */
  lemma GameActionKeepsShape(room: RoomState, playerId: string, resp: ActionResponse, m: int -> int, pid: string)
    requires Rooms.DistinctKeys(room.players) && Rooms.Lookup(room.players, playerId).Some?
    requires Rooms.Lookup(room.players, pid).Some?
    ensures var r := GameActionEffect(room, playerId, resp, m);
      Rooms.DistinctKeys(r.players) && |r.players| == |room.players| &&
      (forall i :: 0 <= i < |room.players| ==> r.players[i].0 == room.players[i].0) &&
      Rooms.Lookup(r.players, pid).Some? &&
      SameExceptDice(Rooms.Lookup(room.players, pid).value, Rooms.Lookup(r.players, pid).value) &&
      (room.inCombat ==> r.inCombat) && r.enemyHealth == room.enemyHealth
  {
    ActionPlayersWithDiceKeys(room, playerId, resp, m);
    ActionPlayersWithDiceAt(room, playerId, resp, m, pid);
  }

  /**
   * When the dice block raises KeyError, the acting player is left waiting
   * on a d20 roll with the modifier of the previous request, and the combat
   * flag is not set.
   */
  lemma GameActionKeyError(room: RoomState, playerId: string, resp: ActionResponse, m: int -> int)
    requires Rooms.DistinctKeys(room.players) && Rooms.Lookup(room.players, playerId).Some?
    requires ActionKeyError(room, playerId, resp)
    ensures var r := GameActionEffect(room, playerId, resp, m);
      r.inCombat == room.inCombat && Rooms.Lookup(r.players, playerId).Some? &&
      var p, q := Rooms.Lookup(room.players, playerId).value, Rooms.Lookup(r.players, playerId).value;
      q.diceRollNeeded && q.diceType == Some("d20") && q.diceModifier == p.diceModifier
  {
    var ps := ActionPlayers(room, resp);
    ActionPlayersShape(room, resp, playerId);
    var p := Rooms.Lookup(ps, playerId).value;
    var q := DiceBookkeeping(p, resp.diceRollRequired, resp.diceRollRequest, m);
    Rooms.LookupPut(ps, playerId, q, playerId);
  }

  /** After the dice block the players keep their keys, their order and their number. */
  lemma ActionPlayersWithDiceKeys(room: RoomState, playerId: string, resp: ActionResponse, m: int -> int)
    requires Rooms.DistinctKeys(room.players) && Rooms.Lookup(room.players, playerId).Some?
    ensures var ps := ActionPlayersWithDice(room, playerId, resp, m);
      Rooms.DistinctKeys(ps) && |ps| == |room.players| &&
      (forall i :: 0 <= i < |room.players| ==> ps[i].0 == room.players[i].0)
  {
    var ps := ActionPlayers(room, resp);
    ActionPlayersShape(room, resp, playerId);
    var q := DiceBookkeeping(Rooms.Lookup(ps, playerId).value, resp.diceRollRequired, resp.diceRollRequest, m);
    Rooms.PutPresent(ps, playerId, q, playerId);
  }

  /** After the dice block each player differs from before only in stats and dice fields. */
  lemma ActionPlayersWithDiceAt(room: RoomState, playerId: string, resp: ActionResponse, m: int -> int, pid: string)
    requires Rooms.DistinctKeys(room.players) && Rooms.Lookup(room.players, playerId).Some?
    requires Rooms.Lookup(room.players, pid).Some?
    ensures var ps := ActionPlayersWithDice(room, playerId, resp, m);
      Rooms.Lookup(ps, pid).Some? &&
      SameExceptDice(Rooms.Lookup(room.players, pid).value, Rooms.Lookup(ps, pid).value)
  {
    var ps := ActionPlayers(room, resp);
    ActionPlayersShape(room, resp, playerId);
    ActionPlayersShape(room, resp, pid);
    var p := Rooms.Lookup(ps, playerId).value;
    var q := DiceBookkeeping(p, resp.diceRollRequired, resp.diceRollRequest, m);
    Rooms.LookupPut(ps, playerId, q, pid);
    var o := Rooms.Lookup(room.players, pid).value;
    if pid == playerId {
      DiceAfterStats(o, p, q);
    } else {
      var r := Rooms.Lookup(ps, pid).value;
      DiceAfterStats(o, r, r);
    }
  }

  /** A player changed only in stats, then only in the dice fields, is changed only in stats and dice fields. */
  lemma DiceAfterStats(o: PlayerState, p: PlayerState, q: PlayerState)
    requires SameExceptStats(o, p, false)
    requires q == p.(diceRollNeeded := q.diceRollNeeded, diceType := q.diceType, diceModifier := q.diceModifier)
    ensures SameExceptDice(o, q)
  {
  }

  lemma CombatResultIgnoresPlayers(room: RoomState, ps: Players, d: Option<int>)
    ensures ApplyCombatResult(room.(players := ps), d) == ApplyCombatResult(room, d).(players := ps)
  {
  }

  /** After `process_roll` the acting player's roll is cleared and combat follows the combat result. */
  lemma ProcessRollClearsRoll(room: RoomState, playerId: string, resp: RollResponse)
    requires Rooms.DistinctKeys(room.players) && Rooms.Lookup(room.players, playerId).Some?
    ensures var r := ProcessRollEffect(room, playerId, resp);
      Rooms.DistinctKeys(r.players) &&
      Rooms.Lookup(r.players, playerId).Some? && Rooms.Lookup(r.players, playerId).value.lastDiceRoll.None? &&
      r.(players := room.players) == ApplyCombatResult(room, resp.damageDealt)
  {
    var ps := ApplyAll(room.players, resp.playersUpdate, true);
    ApplyAllKeys(room.players, resp.playersUpdate, true);
    ApplyAllFields(room.players, resp.playersUpdate, true, playerId);
    var room1 := ApplyCombatResult(room.(players := ps), resp.damageDealt);
    CombatResultIgnoresPlayers(room, ps, resp.damageDealt);
    var p := Rooms.Lookup(ps, playerId).value;
    assert ProcessRollEffect(room, playerId, resp) == room1.(players := Rooms.Put(ps, playerId, p.(lastDiceRoll := None)));
    Rooms.PutKeys(ps, playerId, p.(lastDiceRoll := None));
    Rooms.LookupPut(ps, playerId, p.(lastDiceRoll := None), playerId);
  }

  /** Level, slots, identity and class are untouched; only hp, gold, damage and the dice fields may change. */
  predicate SameExceptDice(p: PlayerState, q: PlayerState)
  {
    q == p.(hp := q.hp, gold := q.gold, damage := q.damage,
            diceRollNeeded := q.diceRollNeeded, diceType := q.diceType, diceModifier := q.diceModifier)
  }

  // ---------------------------------------------------------------------------
  // Effective ability scores

  const AbilityNames: seq<string> := ["strength", "dexterity", "constitution", "intelligence", "wisdom", "charisma"]

  function Get(m: map<string, int>, k: string, d: int): int
  {
    if k in m then m[k] else d
  }

  /**
   * `get_effective_stats`: each ability is the class default (10 when absent)
   * plus the racial bonus (0 when absent). The class's `default_stats` and the
   * race's `ability_scores` arrive as parameters; an empty race or class name
   * is the route's error.
   */
  method EffectiveStats(race: string, className: string, classDefaults: Option<map<string, int>>,
                        raceBonus: map<string, int>) returns (r: Result<map<string, int>, string>)
    ensures r.Err? <==> race == "" || className == ""
    ensures r.Ok? ==> r.value.Keys == set a | a in AbilityNames
    ensures r.Ok? ==> forall i :: 0 <= i < |AbilityNames| ==>
      r.value[AbilityNames[i]] ==
        (match classDefaults case Some(d) => Get(d, AbilityNames[i], 10) case None => 10) +
        Get(raceBonus, AbilityNames[i], 0)
  {
    if race == "" || className == "" {
      return Err("race and class query parameters required");
    }
    var defaults := match classDefaults
      case Some(d) => d
      case None => map["strength" := 10, "dexterity" := 10, "constitution" := 10,
                       "intelligence" := 10, "wisdom" := 10, "charisma" := 10];
    assert forall i :: 0 <= i < |AbilityNames| ==>
      Get(defaults, AbilityNames[i], 10) ==
        (match classDefaults case Some(d) => Get(d, AbilityNames[i], 10) case None => 10);
    var effective := SumAbilities(defaults, raceBonus);
    r := Ok(effective);
  }

  /** The loop of `get_effective_stats`: each ability's default (10 when absent) plus its bonus (0 when absent). */
  method SumAbilities(defaults: map<string, int>, raceBonus: map<string, int>) returns (effective: map<string, int>)
    ensures effective.Keys == set a | a in AbilityNames
    ensures forall i :: 0 <= i < |AbilityNames| ==>
      effective[AbilityNames[i]] == Get(defaults, AbilityNames[i], 10) + Get(raceBonus, AbilityNames[i], 0)
  {
    effective := map[];
    var i := 0;
    while i < |AbilityNames|
      invariant 0 <= i <= |AbilityNames|
      invariant effective.Keys == set a | a in AbilityNames[..i]
      invariant forall j :: 0 <= j < i ==>
        effective[AbilityNames[j]] == Get(defaults, AbilityNames[j], 10) + Get(raceBonus, AbilityNames[j], 0)
    {
      var ability := AbilityNames[i];
      assert AbilityNames[..i + 1] == AbilityNames[..i] + [ability];
      effective := effective[ability := Get(defaults, ability, 10) + Get(raceBonus, ability, 0)];
      i := i + 1;
    }
    assert AbilityNames[..i] == AbilityNames;
  }

  // ---------------------------------------------------------------------------
  // The server's mutable state

  class Server {
    var roomMessages: map<string, seq<LogEntry>>
    const manager: Rooms.RoomManager

    predicate Valid()
      reads this, manager
    {
      manager.Valid() && forall r :: r in roomMessages ==> |roomMessages[r]| <= LogLimit
    }

    constructor (m: Rooms.RoomManager)
      requires m.Valid()
      ensures Valid() && roomMessages == map[] && manager == m
    {
      roomMessages := map[];
      manager := m;
    }

    function Log(roomId: string): seq<LogEntry>
      reads this
    {
      if roomId in roomMessages then roomMessages[roomId] else []
    }

    /** The scan of the last five entries for an identical 'dm' message. */
    method FindDuplicate(log: seq<LogEntry>, message: string) returns (found: Option<int>)
      ensures found == FirstDuplicate(Window(log), message)
    {
      var w := Window(log);
      var i := 0;
      while i < |w|
        invariant 0 <= i <= |w|
        invariant FirstDuplicate(w, message) == FirstDuplicate(w[i..], message)
      {
        assert w[i..][1..] == w[i + 1..];
        if w[i].kind == "dm" && w[i].message == message {
          return Some(w[i].id);
        }
        i := i + 1;
      }
      found := None;
    }

    /**
     * `add_room_message`: a 'dm' message equal to one of the last five 'dm'
     * entries returns that entry's id and adds nothing. Otherwise the entry
     * gets id = log length + 1, the log keeps its last 100 entries, and the
     * room's own history (when the room exists) gets the message too.
     */
    method AddRoomMessage(roomId: string, message: string, kind: string, playerName: Option<string>, detail: Option<string>)
      returns (id: int)
      requires Valid()
      modifies this, manager
      ensures Valid()
      ensures var log := old(Log(roomId));
        var dup := if kind == "dm" && log != [] then FirstDuplicate(Window(log), message) else None;
        if dup.Some? then
          id == dup.value && roomMessages == old(roomMessages)[roomId := log] && manager.rooms == old(manager.rooms)
        else
          id == |log| + 1 &&
          roomMessages == old(roomMessages)[roomId := KeepLast(log + [NewEntry(id, message, kind, playerName, detail)], LogLimit)] &&
          manager.rooms == (if roomId in old(manager.rooms) then
            var room := old(manager.rooms)[roomId];
            old(manager.rooms)[roomId := room.(messageHistory :=
              KeepLast(room.messageHistory + [Rooms.RoomMessage(kind, message, playerName)], LogLimit))]
          else old(manager.rooms))
    {
      if roomId !in roomMessages {
        roomMessages := roomMessages[roomId := []];
      }
      var log := roomMessages[roomId];
      assert log == old(Log(roomId));
      if kind == "dm" && log != [] {
        var found := FindDuplicate(log, message);
        if found.Some? {
          return found.value;
        }
      }
      id := |log| + 1;
      var kept := AppendKeepingLast(log, NewEntry(id, message, kind, playerName, detail));
      roomMessages := roomMessages[roomId := kept];
      AppendRoomHistory(roomId, Rooms.RoomMessage(kind, message, playerName));
    }

    /** Appends an entry and keeps the last 100. */
    static method AppendKeepingLast(log: seq<LogEntry>, e: LogEntry) returns (kept: seq<LogEntry>)
      ensures kept == KeepLast(log + [e], LogLimit)
    {
      kept := log + [e];
      if |kept| > LogLimit {
        kept := kept[|kept| - LogLimit..];
      }
    }

    /** The room's own history gets the message too, keeping its last 100 entries. */
    method AppendRoomHistory(roomId: string, m: Rooms.RoomMessage)
      requires manager.Valid()
      modifies manager
      ensures manager.Valid()
      ensures manager.rooms == (if roomId in old(manager.rooms) then
        var room := old(manager.rooms)[roomId];
        old(manager.rooms)[roomId := room.(messageHistory := KeepLast(room.messageHistory + [m], LogLimit))]
      else old(manager.rooms))
    {
      var room := manager.GetRoom(roomId);
      if room.Some? {
        var history := room.value.messageHistory + [m];
        if |history| > LogLimit {
          history := history[|history| - LogLimit..];
        }
        var ok := manager.UpdateRoom(room.value.(messageHistory := history));
      }
    }

    /**
     * `get_new_messages`: nothing for an unknown room; the last 50 entries
     * when no id is given or it does not parse as an integer; otherwise the
     * entries whose id is above it.
     */
    function GetNewMessages(roomId: string, lastMessageId: Option<string>): (r: seq<LogEntry>)
      reads this
      ensures roomId !in roomMessages ==> r == []
      ensures roomId in roomMessages && (lastMessageId.None? || Text.PyInt(lastMessageId.value).None?) ==>
        r == KeepLast(roomMessages[roomId], PollLimit)
      ensures roomId in roomMessages && lastMessageId.Some? && Text.PyInt(lastMessageId.value).Some? ==>
        var log, ps := roomMessages[roomId], NewerPositions(roomMessages[roomId], Text.PyInt(lastMessageId.value).value, 0);
        |r| == |ps| && forall k :: 0 <= k < |r| ==> r[k] == log[ps[k]]
    {
      if roomId !in roomMessages then []
      else match lastMessageId
        case None => KeepLast(roomMessages[roomId], PollLimit)
        case Some(s) =>
          match Text.PyInt(s)
          case None => KeepLast(roomMessages[roomId], PollLimit)
          case Some(lastId) =>
            NewerThanPositions(roomMessages[roomId], lastId, 0);
            assert roomMessages[roomId][0..] == roomMessages[roomId];
            NewerThan(roomMessages[roomId], lastId)
    }

    /**
     * The state blocks of `game_action`: a missing room or player changes
     * nothing; otherwise the blocks run, and the route succeeds unless the
     * dice block raises KeyError, which leaves the writes made before it.
     */
    method GameAction(roomId: string, playerId: string, resp: ActionResponse, modifierOf: int -> int) returns (ok: bool)
      requires Valid()
      modifies manager
      ensures Valid()
      ensures var present := roomId in old(manager.rooms) && Rooms.Lookup(old(manager.rooms)[roomId].players, playerId).Some?;
        (ok <==> present && !ActionKeyError(old(manager.rooms)[roomId], playerId, resp)) &&
        (!present ==> manager.rooms == old(manager.rooms)) &&
        (present ==> manager.rooms == old(manager.rooms)[roomId :=
          GameActionEffect(old(manager.rooms)[roomId], playerId, resp, modifierOf)])
    {
      var room := manager.GetRoom(roomId);
      if room.None? || Rooms.Lookup(room.value.players, playerId).None? {
        return false;
      }
      GameActionKeepsShape(room.value, playerId, resp, modifierOf, playerId);
      var updated := GameActionEffect(room.value, playerId, resp, modifierOf);
      var stored := manager.UpdateRoom(updated);
      ok := !ActionKeyError(room.value, playerId, resp);
    }

    /** The state blocks of `process_roll`, committed with `update_room`; a missing room or player changes nothing. */
    method ProcessRoll(roomId: string, playerId: string, resp: RollResponse) returns (ok: bool)
      requires Valid()
      modifies manager
      ensures Valid()
      ensures ok <==> roomId in old(manager.rooms) && Rooms.Lookup(old(manager.rooms)[roomId].players, playerId).Some?
      ensures !ok ==> manager.rooms == old(manager.rooms)
      ensures ok ==> manager.rooms == old(manager.rooms)[roomId := ProcessRollEffect(old(manager.rooms)[roomId], playerId, resp)]
    {
      var room := manager.GetRoom(roomId);
      if room.None? || Rooms.Lookup(room.value.players, playerId).None? {
        return false;
      }
      ProcessRollClearsRoll(room.value, playerId, resp);
      ok := manager.UpdateRoom(ProcessRollEffect(room.value, playerId, resp));
    }
  }
}
