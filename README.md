# Console_RPG in Dafny

A model of the rule engines of Console_RPG, a Flask and browser Dungeons & Dragons game.

The model covers:

- the console game engine, with its one-enemy combat, its three-entry chat history and its race and class stats;
- the multiplayer room registry;
- the character and enemy tables with their translation-aware lookups;
- the turn-loop bookkeeping of the Flask app: the room message log, the player deltas, the dice requests and the combat results;
- the tactical battle rules of the battlefield server;
- the stand-alone battle web UI;
- the two browser battle screens;
- the ability-modifier helper of the character page.

Each source file has its own module:

| module | file | what it holds |
|---|---|---|
| `Common` | (shared) | `Option`, `Result`, `Cell`, `Abs`/`Max`/`Min`/`Sum`, `KeepLast` (Python's `s[-n:]`) |
| `Text` | (shared) | lower-casing, `str.split` and its inverse `Join`, `strip`, Python `int()` and JavaScript `parseInt` on decimal strings |
| `Geometry` | (shared) | Chebyshev distance, the one-step approach, the offset-hex neighbours |
| `DnD` | DEF.py | class `Game`: the combat state machine, the history and race and class assignment |
| `Rooms` | room_manager.py | class `RoomManager`: rooms keyed by id, players as an insertion-ordered list of pairs |
| `CharacterConfig` | character_config.py | the tables as constants, and the lookups as functions |
| `App` | app.py | class `Server`: the room message log and the state blocks of `game_action` and `process_roll` |
| `GameServer` | game_server.py | stat derivation, the module-load mana loops, the dice notation, the hit rule and the enemy's turn |
| `WebUI` | webui.py | neighbours, the bounded breadth-first path search, and class `BattleSession` for the session routes |
| `HexGrid` | static/js/hexgrid.js | terrain costs, the breadth-first range set, the greedy path, and class `HexBattle` for the page globals |
| `BattleGrid` | static/js/battle_hexgrid.js | Chebyshev range and area sets, path cost, and the extend-or-cut path edit |
| `BattleCombat` | static/js/battle_combat.js and the handlers of battle_hexgrid.js | the local dice roller, and class `BattlePage` for the shared page globals |
| `GameJs` | static/js/game.js | `computeAbilityModifier` |

Code that updates state in place is modelled as Dafny classes:

- `Game`, `RoomManager`, `Server`, `BattleSession`, `HexBattle` and `BattlePage`.
- Each method gives the whole new state in its postcondition.

Pure code is modelled as functions with lemmas. Loops in the source are `while` loops with invariants. Examples:

- breadth-first searches;
- the ability choice;
- the mana loops;
- the dice loop;
- the area scan.

Every random draw or uuid is a parameter, and a `requires` clause states its range. The reply of the language model is a parameter too.

## Model

| member | source | states |
|---|---|---|
| Common.KeepLastBounded | DEF.py:67-71 | appending to at most n entries and keeping the last n keeps at most n entries, ends with the new one, and drops exactly the oldest when the list was full |
| Geometry.Chebyshev | game_server.py:269-273 | the distance is at least each coordinate difference and equal to one of them (the larger) |
| Geometry.ChebyshevSymmetric | game_server.py:269-273 | the distance is symmetric |
| Geometry.ChebyshevZeroIffEqual | game_server.py:269-273 | the distance is 0 exactly when the cells are equal |
| Geometry.ChebyshevTriangle | game_server.py:269-273 | the distance obeys the triangle inequality |
| Geometry.StepToward | game_server.py:275-291 | the next cell is at most one step away, and each coordinate moves one closer to the player without passing it (or stays when already equal) |
| Geometry.StepTowardCloses | static/js/battle_combat.js:503-514 | a positive distance to the player drops by exactly one per step, and a zero distance stays zero |
| Geometry.Neighbors | static/js/hexgrid.js:269-294 | at most six cells; exactly the even/odd-column offset candidates that lie on the grid; never the cell itself; each at Chebyshev distance 1 |
| Geometry.KeepInGridMembers | static/js/hexgrid.js:290-293 | the grid filter keeps exactly the candidates that lie on the grid |
| Geometry.NeighborsMembers | static/js/hexgrid.js:269-294 | a cell is a neighbour exactly when it is one of the column-parity offsets and lies on the grid |
| Geometry.NeighborsSymmetric | static/js/hexgrid.js:269-294 | for on-grid cells, being neighbours is symmetric |
| CharacterConfig.FirstMatch | character_config.py:212-216 | some English name exactly when a table entry carries the localized name; it is the name of the first such entry |
| CharacterConfig.ToEnglishUnknown | character_config.py:212-216 | a name that neither translation table knows leaves the translation loop unchanged |
| CharacterConfig.GetRaceStatsUnknown | character_config.py:209-217 | an unknown race name gives the Human stats (hp 15, damage "2-7", gold 5) |
| CharacterConfig.GetRaceStatsEnglish | character_config.py:209-217 | every English race name finds its own stats |
| CharacterConfig.GetRaceStatsRussian | character_config.py:209-217 | every Russian race name other than the shared 'Гном' finds the stats of its English name |
| CharacterConfig.GnomeTranslatesToDwarf | character_config.py:142-147 | Dwarf and Gnome share one Russian name, so both resolve to the Dwarf stats and never the Gnome stats |
| CharacterConfig.GetClassBonusesUnknown | character_config.py:219-227 | an unknown class name gives the Warrior bonuses (5, 2, 0) |
| CharacterConfig.GetClassBonusesEnglish | character_config.py:219-227 | every English class name finds its own bonuses |
| CharacterConfig.GetClassBonusesRussian | character_config.py:219-227 | every Russian class name finds the bonuses of its English name |
| CharacterConfig.GetEnemyFallback | character_config.py:229-231 | only the second ENEMIES table is read: a known key gives its entry, anything else a 10-hp Goblin, including 'Skeleton' from the shadowed table |
| CharacterConfig.RaceTablesAgree | character_config.py:178-187 | RACE_STATS has the races of RACE_CONFIGS, with the same hp and gold, and its damage string is "min-max" of the damage roll |
| CharacterConfig.ClassTablesAgree | character_config.py:189-200 | CLASS_BONUSES has the classes of CLASS_CONFIGS, with the same hp and gold bonus and the first-level slot bonus as `magic` |
| CharacterConfig.RaceRows | character_config.py:3-52 | the RACE_CONFIGS rows: exactly the eight races, each with its hp, gold, damage range and slots |
| CharacterConfig.ClassRows | character_config.py:54-115 | the CLASS_CONFIGS rows: exactly the ten classes, each with its bonuses |
| CharacterConfig.RaceConfigsWellFormed | character_config.py:3-52 | every race's damage range has 1 <= min <= max and no slot count is negative |
| CharacterConfig.ClassConfigsWellFormed | character_config.py:54-115 | no class bonus to damage or slots is negative |
| CharacterConfig.EnemiesWellFormed | character_config.py:117-126 | both enemy tables write each damage and gold range with min <= max |
| DnD.NotInCombatNoChange | DEF.py:265-268 | outside combat, or with no enemy, the combat step changes nothing |
| DnD.UnknownActionNoChange | DEF.py:270-371 | any action other than flee, attack and spell leaves the state unchanged and matches no branch during combat |
| DnD.FleeRule | DEF.py:273-281 | a roll over 12 ends combat with the hero unchanged; otherwise combat continues and hp drops by a value in the enemy's damage range, even to 0 or below |
| DnD.StrikeLowersEnemy | DEF.py:284-288 | an attack deals 1..damage and a spell 3..10; the enemy's current hp strictly drops, unless it is a victory or the hero is defeated by the counter-attack |
| DnD.VictoryRule | DEF.py:289-307 | victory ends combat and adds gold in the enemy's range; level, hp and damage rise by exactly 1, 5 and 1 when xp >= 100, and otherwise none of them changes |
| DnD.SpellSlots | DEF.py:329-332 | with no first-level slot the spell is refused with nothing changed; otherwise exactly one slot is spent |
| DnD.CounterAttackEndsCombat | DEF.py:310-317 | after an exchange the hero is alive and still in combat; a counter-attack that takes hp to 0 or below ends combat |
| DnD.CombatStepKeepsInvariant | DEF.py:265-371 | every combat step keeps slot counts non-negative and damage at least 1 |
| DnD.AnnouncementUnmatched | DEF.py:256-262 | once combat has started, the lower-cased announcement of `start_combat` falls through every branch of the combat step |
| DnD.Game.constructor | DEF.py:7-20 | a new game has everything at zero except the rolled damage in 1..10, no race, class or history, and the enemy templates |
| DnD.Game.AddToHistory | DEF.py:67-71 | the history becomes the last three of the old history plus the new exchange |
| DnD.Game.ProcessCombatAction | DEF.py:265-371 | the new state and outcome are one combat step on the lower-cased action; history, templates, race and class are untouched |
| DnD.Game.Hit | DEF.py:284-317 | the shared tail of attack and spell: the enemy takes the damage, then there is a reward or a counter-attack |
| DnD.Game.EnterCombat | DEF.py:250-254 | combat is on, with a fresh copy of the template named after its key and current hp equal to its hp |
| DnD.Game.StartCombatAsWritten | DEF.py:245-263 | as written, combat starts with the fresh enemy but the call returns the unmatched outcome and records no history |
| DnD.Game.StartCombat | DEF.py:245-263 | combat starts with the fresh enemy and the hero unchanged; the announcement and its narration go into the history, and the narration is returned |
| DnD.Game.SendMessage | DEF.py:73-100 | "fight" in any letter case starts combat with the chosen enemy and, through the corrected `StartCombat` of the first Findings row, returns the narration; during combat any other message is exactly one combat step and no history; otherwise the narration is recorded and returned with the game state unchanged |
| DnD.Game.ChooseRace | DEF.py:115-177 | the stripped input is accepted exactly when it is a known race, which then becomes the race with the rolled damage; a refusal changes nothing |
| DnD.Game.ApplyRace | DEF.py:128-172 | a known race sets hp, level 1, gold and the rolled damage, and first-level slots only where the race has them; an unknown race changes nothing |
| DnD.Game.RaceBranches | DEF.py:128-172 | the race if-chain accepts exactly the RACE_CONFIGS names and yields that row's hp and gold, level 1, the rolled damage and its slots; otherwise the numbers are unchanged |
| DnD.Game.ChooseClass | DEF.py:178-244 | the stripped input is accepted exactly when it is a known class, which then becomes the class; a refusal changes nothing |
| DnD.Game.ApplyClass | DEF.py:193-240 | a known class adds its hp, gold and damage bonuses; Warrior sets first-level slots to 0 and the others add theirs; a second-level bonus sets the count to 1; an unknown class changes nothing |
| DnD.Game.ClassBranches | DEF.py:193-240 | the class if-chain accepts exactly the CLASS_CONFIGS names and adds that row's bonuses (Warrior zeroes the first-level slots, a second-level bonus sets 1); otherwise the numbers are unchanged |
| Rooms.Lookup | room_manager.py:32 | a player is found exactly when its id is a key, and it is the value stored under that key |
| Rooms.LookupPut | room_manager.py:80-81 | after assignment the key reads back the new value and every other key reads as before |
| Rooms.PutKeys | room_manager.py:80-81 | assignment adds its key and keeps keys distinct |
| Rooms.PutOrder | room_manager.py:33 | assigning to a present key keeps every key in its place; a new key goes last |
| Rooms.PutPresent | room_manager.py:80-81 | assigning to a present key keeps the keys distinct, in place and as many, and changes only that key's value |
| Rooms.DeleteKeys | room_manager.py:57 | deleting removes exactly that key, keeps the others' values and distinctness, and shortens a list holding it by one |
| Rooms.NewHostRemains | room_manager.py:60-63 | after the host leaves a non-empty room, the new host is one of the remaining players and not the one who left |
| Rooms.NewPlayer | room_manager.py:33-44 | a joined player has the given id and name, empty race and class, and every number zero |
| Rooms.NewRoom | room_manager.py:18-23 | a new room has the given id, host and language and no players |
| Rooms.RoomManager.constructor | room_manager.py:10-13 | the registry starts empty |
| Rooms.RoomManager.CreateRoom | room_manager.py:15-24 | the id is the 8-character uuid prefix, and exactly that key now holds a new room |
| Rooms.RoomManager.JoinRoom | room_manager.py:26-45 | an unknown room gives None and changes nothing; otherwise an existing player is left as it is (idempotent) and a new one is appended, and the room is returned |
| Rooms.RoomManager.LeaveRoom | room_manager.py:47-68 | succeeds exactly when room and player exist; removes exactly that player; a non-host leaving keeps the host; a host leaving hands over to the first remaining player or deletes the empty room |
| Rooms.RoomManager.GetRoom | room_manager.py:70-72 | the stored room exactly when the id is known |
| Rooms.RoomManager.UpdatePlayer | room_manager.py:74-83 | replaces only a player already in an existing room, keyed by its own id; otherwise nothing changes |
| Rooms.RoomManager.UpdateRoom | room_manager.py:85-94 | fails on an unknown id; otherwise stores the room, keeping the language already stored |
| App.Window | app.py:844-845 | the duplicate check looks at a suffix of at most five entries |
| App.FirstDuplicate | app.py:845-847 | none exactly when no 'dm' entry in the window carries the message; otherwise the id of the first such entry, with no match before it |
| App.NewerPositions | app.py:899-903 | positions on the log, from the given one on, whose entries have an id above the given id |
| App.NewerPositionsIncrease | app.py:899-903 | the positions are in increasing order |
| App.NewerPositionsComplete | app.py:899-903 | every position whose entry has a newer id is among them |
| App.NewerThan | app.py:899-903 | exactly the log entries whose id is above the given id, never more than the log holds |
| App.NewerThanPositions | app.py:899-903 | the poll is the entries at those positions in order, so it keeps log order and multiplicity |
| App.NewerThanAppend | app.py:899-903 | the poll of a log with one more entry is the old poll, followed by that entry when its id is newer |
| App.NewerThanNone | app.py:899-903 | a client that has seen every id gets nothing |
| App.NewerThanSuffix | app.py:899-903 | when ids never decrease along the log, as `add_room_message` numbers them even after the cap, the poll gives a suffix of it, in order |
| App.NewerThanAll | app.py:899-903 | when every id is newer, the poll gives the whole log |
| App.RepeatedIdAsWritten | app.py:851-868 | as written, a full log of ids at most 101 gets its new message as id 101 again, and a poll after id 101 misses it |
| App.MaxId | app.py:851 | the largest id in the log, which some entry carries; 0 for an empty log |
| App.NextMessageId | app.py:851 | the corrected next id is above every id in the log |
| App.NextIdReachesPoll | app.py:851-903 | with the corrected id, a client that has seen the largest id gets exactly the new entry on its next poll |
| App.NextIdKeepsOrder | app.py:851-868 | with the corrected id, increasing ids stay increasing after the append and the 100-entry cap |
| App.ApplyPlayerUpdates | app.py:482-494 | the loop applies the deltas in list order |
| App.ApplyOneKeys | app.py:484-487 | a delta never adds, removes or reorders a player |
| App.ApplyAllKeys | app.py:482-494 | the deltas keep the room's players in order, with distinct keys |
| App.ApplyAllUntargeted | app.py:484-487 | a player that no delta names is left exactly as it was |
| App.ApplyAllFields | app.py:743-762 | `game_action`'s deltas touch only hp, gold and damage; `process_roll`'s touch also level and both slot counts, and nothing else |
| App.DiceBookkeeping | app.py:497-534 | only the three dice fields change; no request clears type and modifier; an ability check forces 'd20' and takes the modifier of the named ability's score (looked up lower-case), or, when no such score exists (the KeyError), leaves the old modifier; otherwise the request's type is used, defaulting to 'd20' |
| App.GameActionKeyError | app.py:504-565 | when the named ability has no score, the acting player is still there with the roll flag set and type 'd20' but keeps the old modifier, and the room's combat flag is not set |
| App.CombatStarted | app.py:537-538 | `combat_started` only ever sets the combat flag |
| App.ApplyCombatResult | app.py:765-772 | a zero or missing damage or enemy health changes nothing; otherwise health drops, and at 0 or below combat, the enemy name and the health are cleared |
| App.ActionPlayersShape | app.py:481-494 | `game_action`'s deltas keep players, order and distinct keys, and touch only hp, gold and damage |
| App.GameActionKeepsShape | app.py:481-538 | `game_action` keeps the players and their order, touches only stats and dice fields, never ends combat and never changes enemy health |
| App.ActionPlayersWithDiceKeys | app.py:481-534 | after the player updates and the dice block the room keeps its player keys, their order and their number |
| App.ActionPlayersWithDiceAt | app.py:481-534 | after the player updates and the dice block each player differs from before only in stats and dice fields |
| App.CombatResultIgnoresPlayers | app.py:765-772 | the combat result does not depend on the players |
| App.ProcessRollClearsRoll | app.py:743-778 | after `process_roll` the acting player's last roll is cleared, and the room outside its players is exactly the combat result |
| App.EffectiveStats | app.py:936-958 | an error exactly when race or class is empty; otherwise the six abilities, each the class default (10 when absent) plus the racial bonus (0 when absent) |
| App.SumAbilities | app.py:955-957 | exactly the six abilities, each the class default (10 when absent) plus the racial bonus (0 when absent) |
| App.Server.constructor | app.py:99 | the message store starts empty |
| App.Server.FindDuplicate | app.py:844-847 | the scan finds the first 'dm' duplicate in the last five entries |
| App.Server.AddRoomMessage | app.py:839-889 | a 'dm' duplicate in the last five returns its id and adds nothing; otherwise the id is the log length + 1, the entry goes last and only the last 100 are kept, and the room's own history gets it too |
| App.Server.AppendKeepingLast | app.py:863-867 | the new entry appended and then only the last 100 entries kept |
| App.Server.AppendRoomHistory | app.py:870-886 | the room's history gets the message, keeping its last 100; an unknown room is unchanged |
| App.Server.GetNewMessages | app.py:891-903 | nothing for an unknown room; the last 50 entries without a parsable id; otherwise the entries at the increasing positions of those with a larger id, in log order |
| App.Server.GameAction | app.py:481-565 | succeeds exactly when room and player exist and no ability lookup fails; with room and player it commits the state blocks of `game_action` (up to the failing lookup, whose in-place writes stay); otherwise nothing changes |
| App.Server.ProcessRoll | app.py:743-778 | succeeds exactly when room and player exist, and then commits the state blocks of `process_roll`; otherwise nothing changes |
| GameServer.CalculatePlayerStats | game_server.py:234-258 | hp = max hp = base hp + class bonus, speed 30, mana from the race; each class ability plus the racial score (0 when absent); each race slot level plus the class bonus (0 when absent) |
| GameServer.AddBonuses | game_server.py:246-254 | the keys of the base list, each value plus the bonus under its key |
| GameServer.AddMana | game_server.py:18-24 | every race gets base and max mana 20 + 2 x intelligence + wisdom, with nothing else changed |
| GameServer.AssignManaCost | game_server.py:26-37 | every spell of a level gets that level's cost, with nothing else changed |
| GameServer.CalculateDistance | game_server.py:269-273 | max(abs(dx), abs(dy)), the Chebyshev distance, 0 exactly for equal cells |
| GameServer.MoveTowardPlayer | game_server.py:275-291 | one step at most; the distance to the player drops by exactly one; no coordinate gets further; speed is ignored |
| GameServer.GetEnemyForDifficulty | game_server.py:260-267 | easy is goblin, hard is orc, anything else the random choice |
| GameServer.ParseNotation | game_server.py:103-112 | a missing or empty notation is the missing-notation error and nothing else is; any count of 'd' other than one is invalid |
| GameServer.ParseParts | game_server.py:111-124 | anything but two pieces is invalid, and the missing-notation error never arises here |
| GameServer.RollDice | game_server.py:100-137 | parse errors pass through; an empty die range is the format error; otherwise the rolls are kept and total = their sum + modifier |
| GameServer.RollTotalBounds | game_server.py:126-128 | the total lies between count + modifier and count x sides + modifier |
| GameServer.ParseFormat | game_server.py:108-124 | parsing the canonical "NdS+M" spelling gives the numbers back |
| GameServer.EmptyCountIsOne | game_server.py:115 | "dS" is one die of S sides |
| GameServer.CheckHit | game_server.py:140-150 | a hit exactly when the roll is over 10, a critical exactly on 20, and a critical is a hit |
| GameServer.FirstInRange | game_server.py:181-185 | the first ability, in order, whose range reaches the distance; none exactly when no range does |
| GameServer.ChooseAbility | game_server.py:181-185 | the loop with `break` picks the first ability in range |
| GameServer.FirstInRangeUnique | game_server.py:181-185 | the first reaching ability is the one chosen |
| GameServer.RestoredMana | game_server.py:225-230 | only an enemy with mana regains 5, up to its maximum (0 when absent) |
| GameServer.EnemyTurn | game_server.py:153-232 | with an ability in range, the enemy attacks with the first one: a roll of 10 or less misses for 0, otherwise it deals the sum of its dice; with none in range it steps toward the player; the default positions are used when missing |
| GameServer.ConfiguredDice | game_server.py:197-199 | every configured ability reads as one die of at least six sides |
| GameServer.ConfiguredEnemiesHaveNoMana | game_server.py:225-230 | neither configured enemy has mana to restore |
| GameServer.DamageDiceFormat | game_server.py:197-199 | "NdS" reads back as (N, S) |
| GameServer.GoblinNeverMelees | game_server.py:181-185 | the goblin's bow outranges its melee attack and comes first, so the melee attack is never chosen |
| WebUI.GetNeighbors | webui.py:8-20 | at most six, never the cell itself |
| WebUI.GetNeighborsMembers | webui.py:8-20 | the neighbours are exactly the even/odd-column offsets that lie on the 10 x 8 grid |
| WebUI.ExtendEntry | webui.py:48-52 | extending a queued path by a neighbour keeps it a walk from the start, not through the target and within the step bound |
| WebUI.KeepCloser | webui.py:32-40 | keeping a strictly closer dequeued cell keeps the best path the first of minimal distance |
| WebUI.KeepIfCloser | webui.py:32-40 | after the distance check the kept path ends at the first explored cell of least distance, and the remembered distance is that cell's |
| WebUI.EnqueueNeighbors | webui.py:47-52 | every neighbour other than the target ends up visited; the queue and visited set only grow, and the unvisited cells shrink when anything is added |
| WebUI.EnqueueStep | webui.py:47-52 | enqueueing one unvisited neighbour keeps the queue sound and leaves fewer grid cells unvisited |
| WebUI.SearchBegins | webui.py:24-25 | the start queued alone at depth 0 meets the breadth-first invariant |
| WebUI.DequeueSkip | webui.py:42-43 | skipping a head whose path has `max_steps` cells keeps the invariant and adds the head to the dequeue order |
| WebUI.DequeueExpand | webui.py:48-52 | expanding the head keeps the invariant, with the newly visited cells one step deeper than the head |
| WebUI.ExpandOrder | webui.py:48-52 | after expanding the head, the queue holds valid, fresh entries in non-decreasing depth, and every visited cell is explored or queued exactly once |
| WebUI.ExpandReach | webui.py:48-52 | after expanding the head, every neighbour of an expanded cell within the bound is recorded at most one step deeper, and every recorded depth is reachable from the start |
| WebUI.Reached | webui.py:29-52 | once the queue is empty, every cell reachable in k steps within the bound was visited at depth at most k |
| WebUI.SearchEnds | webui.py:29-52 | once the queue is empty, the dequeued cells are exactly those reachable within the bound without passing the target, each at its fewest steps |
| WebUI.OuterBegins | webui.py:24-27 | before the loop nothing is dequeued and no distance is kept |
| WebUI.OuterHead | webui.py:29-46 | the head is a valid walk recorded at its path length; only the start can be the target when dequeued |
| WebUI.OuterSkip | webui.py:37-43 | a head that is not expanded keeps the loop invariant, the kept path included |
| WebUI.SkipStart | webui.py:42-46 | a start equal to the target is dequeued alone and skipped only when `max_steps <= 0`, leaving [start] kept |
| WebUI.OuterExpand | webui.py:37-52 | an expanded head keeps the loop invariant, the kept path included |
| WebUI.OuterEnds | webui.py:29-55 | with the queue empty, the dequeue order has no repeats and holds exactly the reachable cells; the kept cell is the first of least distance, a closest reachable cell at its fewest steps |
| WebUI.VisitHead | webui.py:30-52 | one turn keeps the loop invariant and shrinks the unvisited cells or the queue; it returns early only when the start is the target and may be expanded |
| WebUI.ExpandHead | webui.py:48-52 | queuing the head's fresh neighbours keeps the loop invariant and shrinks the unvisited cells or the queue |
| WebUI.Explore | webui.py:22-52 | the loop either returns early on the start being the target, or drains the queue with the invariant holding |
| WebUI.ComputePath | webui.py:22-55 | [] when start is the target (and [start] when then `max_steps <= 0`); otherwise the dequeue order has no repeats, begins at the start and holds exactly the cells reachable within the bound without passing the target, and the path ends at the first cell of `explored` of least distance, a closest reachable cell reached in its fewest steps, never more than `max_steps` |
| WebUI.FirstOther | webui.py:213-216 | the first neighbour that is not the cell to avoid, or none when all are |
| WebUI.JumpEndsAdjacent | webui.py:211-222 | the cell the goblin jumps to beside an on-grid player has the player as neighbour, so it attacks |
| WebUI.PlayerPosition | webui.py:181-186 | a position exactly when both fields are present and parse as integers |
| WebUI.Landing | webui.py:204-216 | the walked-to cell is kept when within 1.5 of the player or no neighbour of the player other than the old cell exists; otherwise the first such neighbour |
| WebUI.Approach | webui.py:193-219 | the goblin stays when beside the player or on its cell; otherwise `steps` is the fewest steps (at most 6) to a cell closest to the player among those reachable, and it lands at `Landing` from that cell (from its own cell when `steps` is 0) |
| WebUI.GoblinTurn | webui.py:193-231 | the goblin lands where `Approach` puts it, attacks exactly when then beside the player, hits on 10 or more, and only a hit takes the damage off the character's hp |
| WebUI.BattleSession.constructor | webui.py:179-180 | a fresh session holds no character and no enemy, which the routes report as no battle |
| WebUI.BattleSession.CreateCharacter | webui.py:59-90 | hp is constitution + 10, two slots, Magic Missile and Shield, speed 30, and a 15-hp goblin at (5, 4) |
| WebUI.BattleSession.Attack | webui.py:108-143 | no battle and bad rolls change nothing; a roll of 10 or more hits, and only a hit lowers enemy hp by the damage; defeat is hp <= 0 |
| WebUI.BattleSession.CastSpell | webui.py:147-174 | an unknown spell or no slot is refused with nothing changed; otherwise exactly one slot is spent, Shield included, and Magic Missile deals 3..8 |
| WebUI.BattleSession.EnemyAttack | webui.py:178-241 | no battle or no position changes nothing; otherwise the goblin moves to where `Approach` lands it, attacks exactly when then beside the player, hits on 10 or more, and only a hit lowers character hp |
| HexGrid.MovementCost | config.py:36 | every multiplier is a positive ratio (1, or 6/5 in the desert) |
| HexGrid.MoveCost | static/js/hexgrid.js:314-316 | floor(steps x base cost x multiplier) is steps x the per-hex cost |
| HexGrid.MaxSteps | static/js/hexgrid.js:237-238 | the most hexes the speed pays for: those steps fit and one more does not |
| HexGrid.BudgetCoversPath | static/js/hexgrid.js:237-238 | a path within the step bound never costs more than the speed |
| HexGrid.BallWithinChebyshev | static/js/hexgrid.js:366-394 | a cell within d steps of the grid's neighbour relation is within Chebyshev distance d |
| Geometry.BallWithinSteps | static/js/hexgrid.js:366-394 | for any neighbour relation whose steps move at most one cell, d steps stay within Chebyshev distance d |
| HexGrid.QueueFresh | static/js/hexgrid.js:382-390 | the queue gets exactly the unvisited neighbours, one step further |
| HexGrid.Complete | static/js/hexgrid.js:371-392 | with the queue drained, every cell within k <= range steps of the neighbour relation was visited at distance at most k |
| HexGrid.RangeStep | static/js/hexgrid.js:371-392 | one loop iteration keeps the search invariant and shrinks the unvisited cells or the queue |
| HexGrid.GetCellsInRange | static/js/hexgrid.js:366-394 | nothing for a negative range; otherwise the start first, no duplicates, and exactly the cells within range neighbour steps |
| HexGrid.SearchStart | static/js/hexgrid.js:367-369 | the initial queue holding only the start at distance 0 satisfies the search invariant |
| HexGrid.SearchDone | static/js/hexgrid.js:371-394 | once the queue is empty the collected cells are exactly those within range steps, the start first and none twice |
| HexGrid.FirstClosestUnique | static/js/hexgrid.js:249-260 | the greedy choice (first strictly closest non-enemy neighbour) is unique |
| HexGrid.GreedyExtend | static/js/hexgrid.js:240-265 | a greedy step keeps the path a walk of neighbours avoiding the enemy, each step the greedy choice |
| HexGrid.ClosestNeighbor | static/js/hexgrid.js:249-260 | none exactly when every neighbour is the enemy cell; otherwise the first closest non-enemy neighbour |
| HexGrid.HexBattle.constructor | static/js/hexgrid.js:2-13 | the configured start or (0, 0), the enemy at (5, 4), speed 30, no path or highlight |
| HexGrid.HexBattle.ChangeTerrain | static/js/hexgrid.js:45-49 | only the terrain changes |
| HexGrid.HexBattle.ComputePath | static/js/hexgrid.js:227-267 | starts at the start; [start] when the end is the enemy; at most the step bound + 1 cells; never the enemy cell; every step greedy; it stops at the end, past the bound, or when stuck |
| HexGrid.HexBattle.StartDrawing | static/js/hexgrid.js:336-343 | a press on the player starts a path at the player; anything else changes nothing |
| HexGrid.HexBattle.DrawTo | static/js/hexgrid.js:345-353 | while drawing, the path becomes the greedy path from the player to the hovered cell; otherwise nothing changes |
| HexGrid.HexBattle.StopDrawing | static/js/hexgrid.js:355-357 | drawing stops and the path stays |
| HexGrid.HexBattle.ApplyMove | static/js/hexgrid.js:301-331 | a path under two cells, a destination on the enemy or a cost over the speed is refused with nothing changed; otherwise the player moves to the end, pays the cost, the path is cleared, and speed stays non-negative |
| HexGrid.HexBattle.HighlightRange | static/js/hexgrid.js:397-401 | the highlight is exactly the cells within range neighbour steps of the player |
| HexGrid.HexBattle.ClearHighlight | static/js/hexgrid.js:404-408 | no highlight and range 0, nothing else changed |
| HexGrid.HexBattle.IsInRange | static/js/hexgrid.js:411-415 | true exactly when the target is within range neighbour steps of the player |
| HexGrid.HexBattle.CheckAdjacent | static/js/hexgrid.js:296-299 | true exactly when the enemy is a neighbour of the player |
| BattleGrid.GetDistance | static/js/battle_hexgrid.js:488-492 | the Chebyshev distance, 0 exactly for equal cells |
| BattleGrid.AdjacencyFacts | static/js/battle_hexgrid.js:516-518 | adjacency is reflexive and symmetric, and every hex neighbour is adjacent |
| BattleGrid.AdjacencyWiderThanHex | static/js/battle_hexgrid.js:516-518 | (0, 0) and (1, 1) are adjacent here but not hex neighbours |
| BattleGrid.CellsWithin | static/js/battle_hexgrid.js:500-513 | exactly the grid cells within the radius, column by column, each once |
| BattleGrid.PathCost | static/js/battle_hexgrid.js:526-541 | a path costs nothing exactly when it has at most one cell |
| BattleGrid.PathCostAgrees | static/js/battle_hexgrid.js:526-541 | both battle screens charge the same for a path of the same length |
| BattleGrid.PathCostMonotone | static/js/battle_hexgrid.js:526-541 | a longer path never costs less |
| BattleGrid.CalculatePathCost | static/js/battle_hexgrid.js:526-541 | the loop's sum is the path cost |
| BattleGrid.IndexOf | static/js/battle_hexgrid.js:154-155 | the first position holding the cell |
| BattleGrid.EditKeepsDrawable | static/js/battle_hexgrid.js:147-163 | editing keeps the path free of repeats with adjacent steps, keeps its first cell, ends it on an adjacent hovered cell, and ignores a non-adjacent one |
| BattleCombat.ParseLocal | static/js/battle_combat.js:529-551 | a notation that does not split into two pieces around 'd' keeps 1d6+0 |
| BattleCombat.LocalParts | static/js/battle_combat.js:537-551 | an empty count is 1, and sides without '+' give modifier 0 |
| BattleCombat.LocalParseFormat | static/js/battle_combat.js:529-551 | the browser reads every "NdS+M" the server formats as the same three numbers as the server |
| BattleCombat.JsAdd | static/js/battle_combat.js:560 | a sum is NaN exactly when an operand is |
| BattleCombat.RollParsed | static/js/battle_combat.js:553-562 | count dice (none for a NaN count), each one more than its draw; total = their sum + modifier, NaN exactly when modifier or sides are; within count + modifier and count x sides + modifier |
| BattleCombat.RollDice | static/js/battle_combat.js:554-557 | one die per count, each one more than its draw, NaN when the sides are NaN |
| BattleCombat.SumDice | static/js/battle_combat.js:560 | the sum of the dice, NaN exactly when a die is NaN |
| BattleCombat.SumDiceStep | static/js/battle_combat.js:560 | adding one die keeps the sum equal to the dice values so far, and NaN exactly when the sides are NaN |
| BattleCombat.SimulateDiceRoll | static/js/battle_combat.js:529-563 | the parsed notation and its roll, with the same guarantees |
| BattleCombat.ConfiguredDamageRolls | static/js/battle_combat.js:529-563 | every configured enemy ability reads locally as one die of at least six sides and no modifier |
| BattleCombat.BattlePage.constructor | static/js/battle_combat.js:6-15 | move mode, full speed, nothing selected, the player's turn, and the mana text showing the mana |
| BattleCombat.BattlePage.SetInteractionMode | static/js/battle_hexgrid.js:372-392 | the mode is set, and highlights, path, target and area are cleared |
| BattleCombat.BattlePage.HighlightCellsInRange | static/js/battle_hexgrid.js:474-485 | the highlight is exactly the grid cells within the range, each once |
| BattleCombat.BattlePage.SelectAttack | static/js/battle_hexgrid.js:321-369 | the attack is stored, attack mode is set, and the highlight is exactly the cells in its range |
| BattleCombat.BattlePage.HandleMouseDown | static/js/battle_hexgrid.js:83-123 | in move mode a press on the player starts a path; in attack mode a cell in range becomes the target, with its area when the attack has one |
| BattleCombat.BattlePage.HandleMouseMove | static/js/battle_hexgrid.js:126-178 | while drawing the path is edited; in attack mode the area preview follows a cell in range; a drawn path stays drawable |
| BattleCombat.BattlePage.HandleMouseUp | static/js/battle_hexgrid.js:181-191 | drawing stops in move mode and nothing else changes |
| BattleCombat.BattlePage.ConfirmMove | static/js/battle_hexgrid.js:395-425 | moves exactly when the path has more than one cell and its cost fits the speed left; then the player goes to its last cell, pays and the path clears; otherwise position and speed stay |
| BattleCombat.BattlePage.ApplyDamage | static/js/battle_combat.js:203-229 | enemy health becomes max(0, h - amount), and reaching 0 ends the game |
| BattleCombat.BattlePage.ApplyHealing | static/js/battle_combat.js:234-249 | player health becomes min(max, h + amount) |
| BattleCombat.BattlePage.ApplyDamageToPlayer | static/js/battle_combat.js:412-438 | player health becomes max(0, h - amount), and reaching 0 ends the game |
| BattleCombat.BattlePage.UpdatePlayerMana | static/js/battle_combat.js:273-280 | the mana text shows the mana |
| BattleCombat.BattlePage.ResetAttackState | static/js/battle_combat.js:254-269 | target, area and highlight cleared, back to move mode |
| BattleCombat.BattlePage.PerformAttack | static/js/battle_combat.js:26-90 | nothing happens after the game ends, with no attack, an unaffordable spell or no target, and each of these gives its own outcome (GameOver, NoAttack, NotEnoughMana, NoTarget); otherwise a spell's cost is paid on hit and miss, mana stays non-negative, a hit heals or damages by the roll, and the page returns to move mode |
| BattleCombat.BattlePage.ConfirmAttack | static/js/battle_hexgrid.js:428-447 | attacks exactly when the target is the enemy's cell or the enemy is in the area, and then the whole new state is that of `PerformAttack`; otherwise nothing changes |
| BattleCombat.BattlePage.EndTurnAsWritten | static/js/battle_hexgrid.js:450-471 | as written, speed is restored and only the mana text rises by 5 (capped); the mana itself, the turn, the drawing flag and the selected attack are unchanged |
| BattleCombat.BattlePage.EndTurn | static/js/battle_hexgrid.js:450-471 | speed is restored and mana rises by 5 up to the maximum, never above it, and the text shows it; the turn, the drawing flag and the selected attack are unchanged |
| BattleCombat.BattlePage.FinishEnemyTurn | static/js/battle_combat.js:443-451 | unless the game has ended, the player's turn begins in move mode |
| BattleCombat.BattlePage.EnemyStrikeWith | static/js/battle_combat.js:346-383 | a d20 over 10 hits for a total the ability's dice can roll, and player health drops by it; a miss changes no health; the game ends exactly when a hit brings health to 0, and otherwise the turn passes to the player in move mode |
| BattleCombat.StrikeRoll | static/js/battle_combat.js:361-372 | a d20 above 10 hits, and a hit's damage is a total the ability's dice can roll |
| BattleCombat.RollDamage | static/js/battle_combat.js:369-372 | the damage is a total the notation's dice can roll |
| BattleCombat.BattlePage.ResolveStrike | static/js/battle_combat.js:364-379 | a hit lowers player health by the damage (not below 0); the game ends exactly when a hit brings it to 0; a miss changes no health; otherwise the turn passes to the player in move mode |
| BattleCombat.BattlePage.CheckEnemyAttack | static/js/battle_combat.js:336-383 | the first ability whose range reaches the Chebyshev distance attacks; with none the enemy does not strike; the game ends exactly when a strike hits and brings health to 0, and otherwise the turn passes to the player in move mode |
| BattleCombat.BattlePage.ExecuteLocalEnemyAI | static/js/battle_combat.js:456-524 | the enemy moves exactly when no ability is in range, one step toward the player, and the distance drops by one; then the first ability reaching from the new cell attacks as above, with none there is no strike; the game ends exactly when a strike hits and brings health to 0, and otherwise the turn passes to the player in move mode |
| BattleCombat.ManaAfterEndTurnAsWritten | static/js/battle_hexgrid.js:459-463 | with 0 of 20 mana, after ending the turn the page shows 5 mana but a 5-mana spell at the adjacent enemy is refused |
| BattleCombat.ManaAfterEndTurn | static/js/battle_hexgrid.js:459-463 | with the corrected turn end the same spell lands and spends the 5 restored mana |
| GameJs.ScoreOf | static/js/game.js:498 | the score under the lower-cased name when present and non-zero, else 10; never 0 |
| GameJs.ComputeAbilityModifier | static/js/game.js:496-500 | blank exactly when the ability is missing or empty or there are no scores |
| GameJs.ModifierIsHalfRoundedDown | static/js/game.js:499 | the modifier m satisfies 2m <= score - 10 < 2m + 2, that is floor((score - 10) / 2) |
| GameJs.ModifierMonotone | static/js/game.js:499 | a higher score never gives a lower modifier |
| GameJs.ModifierIgnoresCase | static/js/game.js:498 | ability names equal up to letter case give the same modifier |
| GameJs.ModifierExamples | static/js/game.js:496-500 | 8 and 9 give -1, 10 gives 0, 20 gives 5, and a score of 0 or a missing one gives 0 |

## Left out

- The language-model calls (gemini.py, prompts.py, `update_system_prompt`, the narrative branch of `send_message`): foreign API. The narration is a parameter.
- darkness.py and main.py: an older copy of the DEF.py tables, and a console loop calling methods that DEF.py does not define.
- Flask routing, `session`, `jsonify` and logging: plumbing. The routes' state rules are methods, and a session dict is an object field.
- Save/load files, `list_saves` and `cleanup_inactive_rooms`: file I/O and the wall clock.
- Room locks: concurrency. All operations are sequential.
- `randint`, `choice`, `Math.random` and uuid: every draw is a parameter bounded by `requires`.
- Canvas drawing, zoom and pan, and pixel-to-cell conversion: floating-point rendering.
- Square roots are not modelled: distances are compared squared, which orders cells the same way.
- Terrain multipliers are exact ratios (1.2 is 6/5): floating-point rounding of `5 * 1.2` is not modelled.
- The DOM: HTML and log strings are not modelled, except the "mana/max" text, whose numbers the battle page keeps as fields.
- The UI-only scripts, combat.js and the data-only files: presentation or constants. The constants the model needs (enemy abilities, base cost 5, terrain multipliers) are copied.
- `executeEnemyTurn`'s server request and `processEnemyAttack` (static/js/battle_combat.js:284-410): network calls. The local fallback `executeLocalEnemyAI` is modelled.
- The `rollToHit`/`rollDice` requests of `performAttack`: network calls. Whether the attack hit and the rolled amount are parameters.
- Promise and `setTimeout` ordering is collapsed. Damage or healing is applied before the attack state is reset, and the enemy's turn runs to completion at once.
- The mana bar's percentage width in `endTurn` and the mana log line of `selectAttack`: display only.
- BattleCombat.BattlePage.HandleMouseDown: attack mode with no selected attack would throw in the script; the model changes nothing.
- BattleCombat.BattlePage.HandleMouseMove: the same holds when no attack is selected. An empty path while drawing does arise: mouseup is listened for on the canvas only (static/js/battle_hexgrid.js:73), and `confirmMove` empties the path (static/js/battle_hexgrid.js:409) while `isDrawingPath` stays set. The next mouse move then reads the last cell of the empty path and throws (static/js/battle_hexgrid.js:149, 516-518). The model leaves the state unchanged, which is the effect of that throw; the exception itself is not modelled.
- BattleCombat.BattlePage.ConfirmMove: the script does not refuse a path ending on the enemy's cell, and neither does the model. hexgrid.js `applyMove` does refuse it.
- BattleCombat.SimulateDiceRoll: a '-' modifier is not parsed by the script. `parseInt("6-1")` reads 6 and the modifier stays 0, and the model keeps that.
- BattleCombat.BattlePage.ApplyDamage: health that is NaN is not modelled; amounts are integers.
- GameJs.ComputeAbilityModifier: `|| 10` also replaces NaN and null scores. Only a missing or zero score is modelled.
- DnD.Game.SendMessage: "fight" goes to the corrected `StartCombat` of the first Findings row, so the reply is the narration and it is recorded. As written (DEF.py:76-78) the reply is None and the history is unchanged; `StartCombatAsWritten` models that call.
- DnD.Game.ChooseRace: on an unknown race the source prompts again by recursion. The model refuses, and the caller repeats with the next line.
- DnD.Game.ChooseClass: the same holds for an unknown class.
- App.EffectiveStats: the class `default_stats` and the race `ability_scores` that the route reads are missing from the character_config.py tables. They are parameters.
- GameServer.CalculatePlayerStats: the same holds for the ability scores, slots and mana it reads from the race and class configurations.
- `PlayerState` and `RoomState` are not defined in the shown files: their fields are taken from room_manager.py and app.py. The six ability scores that app.py:390-395 sets on the player are one map, `scores`, keyed by the lower-case names; the derived `ability_scores` extra is not modelled.
- App.DiceBookkeeping: `calculate_ability_modifier` is imported from character_config.py but not defined there, so the modifier is a parameter `modifierOf`. `player.model_dump()` also has keys such as 'gold' or 'level'; the model looks an ability name up among the six scores only, so a request naming another player field is treated as the KeyError.
- App.Server.GameAction: on the KeyError, `game_action` answers with its error reply; the reply itself is not modelled, only `ok` being false. The writes made before the failing lookup went into the live room that `get_room` handed out, so they stay; the model stores that room.
- Text.Lower: only the ASCII letters A-Z are lowered. Python's `lower()` and JavaScript's `toLowerCase()` also map other Unicode letters.
- Text.Strip: only ASCII whitespace is removed. Python's `strip()` also removes Unicode spaces.
- Text.PyInt: accepts an optional sign and ASCII digits, with surrounding ASCII whitespace. Python's `int()` also accepts underscores between digits ("1_0") and non-ASCII decimal digits; the model rejects both.
- Text.ParseInt: reads leading decimal digits only. JavaScript's `parseInt` without a radix also reads a "0x" prefix as hexadecimal; the model reads "0x1A" as 0.
- WebUI.Approach: when several reachable cells tie for closest, `compute_path` keeps the first one dequeued. `Approached` names one of the closest cells at its fewest steps, not which one the dequeue order picks. The same holds for `WebUI.ComputePath` (its end is pinned only as the first cell of least distance in `explored`, whose order among cells of equal depth is not stated), `WebUI.GoblinTurn` and `WebUI.BattleSession.EnemyAttack`.
- App.Server.AddRoomMessage: ids are the log length + 1, as written, so they repeat once the log is full (third Findings row). The corrected `NextMessageId` is proved separately and is not used by the server model.
- BattleCombat.BattlePage.SelectAttack: `selectAttack` (static/js/battle_hexgrid.js:321-369) never sets `healing`, so attacks stored from the page have none and `PerformAttack`'s healing branch is reached only with a healing spell stored another way.
- Rooms.RoomManager.UpdateRoom: rooms are values. `get_room` hands out the live `RoomState`, which app.py changes before calling `update_room`; that sharing is not modelled, and the model states only the stored result.
- The hit threshold differs between files: 10 or more hits in webui.py, more than 10 in game_server.py and battle_combat.js. Each module keeps its own.

## Findings

| source | as written | input that shows it | evidently intended | confidence | as-written member | corrected member |
|---|---|---|---|---|---|---|
| DEF.py:245-263 | `start_combat` sets `in_combat` and then sends the announcement through `send_message`, which routes every in-combat message to `process_combat_action`; the announcement matches no branch, so the call returns None and the model never narrates the fight's start | `start_combat("Goblin")`, or the message "fight" | the announcement is narrated by the model, recorded in the history and returned | high; not executed | DnD.Game.StartCombatAsWritten, DnD.AnnouncementUnmatched | DnD.Game.StartCombat |
| static/js/battle_hexgrid.js:459-463 | `endTurn` writes the restored mana only into the "mana/max" text; `playerMana`, which `performAttack` checks (static/js/battle_combat.js:31-36), is not changed | 0 of 20 mana; end the turn (the page shows 5/20); cast a 5-mana spell at the adjacent enemy: "Not enough mana" | `playerMana` itself rises by 5, capped at the maximum, and the text shows it | high; not executed | BattleCombat.BattlePage.EndTurnAsWritten, BattleCombat.ManaAfterEndTurnAsWritten | BattleCombat.BattlePage.EndTurn, BattleCombat.ManaAfterEndTurn |
| app.py:851-868 | `add_room_message` numbers a new entry `len + 1` after the log has been cut to its last 100 entries, so from the 102nd message on every entry gets id 101; `get_new_messages` keeps only ids above the client's last id | 101 messages in one room; a client has seen id 101 and polls with "101"; the 102nd message gets id 101 and the poll returns nothing, as for every later message | ids keep rising past the cap, one above the largest id so far, so a client that has seen everything receives each new message | high; not executed | App.Server.AddRoomMessage, App.RepeatedIdAsWritten | App.NextMessageId, App.NextIdReachesPoll, App.NextIdKeepsOrder |
