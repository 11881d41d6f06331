/**
 * The battlefield server of game_server.py: stat derivation, the mana
 * set-up done when the module loads, dice notation, hit checks and the
 * enemy's turn. Every `random` result is a parameter.
 */
module GameServer {
  import opened Common
  import Text
  import Geometry

  // ---------------------------------------------------------------------------
  // Player stats and the module-load mana loops

  /** The race fields the server reads (ability scores and mana come from the extended configs). */
  datatype RaceSetup = RaceSetup(baseHp: int, abilityScores: map<string, int>, magicSlots: seq<(string, int)>,
                                 baseMana: int, maxMana: int)

  datatype ClassSetup = ClassSetup(hpBonus: int, defaultStats: seq<(string, int)>, magicSlotsBonus: map<string, int>)

  datatype PlayerStats = PlayerStats(hp: int, maxHp: int, mana: int, maxMana: int, speed: int,
                                     abilities: map<string, int>, magicSlots: map<string, int>)

  const DefaultSpeed := 30

  function Get(m: map<string, int>, k: string, d: int): int
  {
    if k in m then m[k] else d
  }

  function KeysOf(s: seq<(string, int)>): set<string>
  {
    set e | e in s :: e.0
  }

  /**
   * `calculate_player_stats`: hp and max hp are base hp plus the class bonus,
   * speed is 30, each class default ability gains the racial score (0 when
   * absent), and each race slot level gains the class bonus (0 when absent).
   */
  method CalculatePlayerStats(race: RaceSetup, cls: ClassSetup) returns (stats: PlayerStats)
    ensures stats.hp == race.baseHp + cls.hpBonus && stats.maxHp == stats.hp
    ensures stats.mana == race.baseMana && stats.maxMana == race.maxMana && stats.speed == DefaultSpeed
    ensures stats.abilities.Keys == KeysOf(cls.defaultStats)
    ensures forall e :: e in cls.defaultStats && (forall f :: f in cls.defaultStats && f.0 == e.0 ==> f == e) ==>
              stats.abilities[e.0] == e.1 + Get(race.abilityScores, e.0, 0)
    ensures stats.magicSlots.Keys == KeysOf(race.magicSlots)
    ensures forall e :: e in race.magicSlots && (forall f :: f in race.magicSlots && f.0 == e.0 ==> f == e) ==>
              stats.magicSlots[e.0] == e.1 + Get(cls.magicSlotsBonus, e.0, 0)
  {
    var hp := race.baseHp + cls.hpBonus;
    var abilities := AddBonuses(cls.defaultStats, race.abilityScores);
    var slots := AddBonuses(race.magicSlots, cls.magicSlotsBonus);
    stats := PlayerStats(hp, hp, race.baseMana, race.maxMana, DefaultSpeed, abilities, slots);
  }

  /** The loop shared by abilities and slots: each entry's value plus the bonus under its key. */
  method AddBonuses(base: seq<(string, int)>, bonus: map<string, int>) returns (r: map<string, int>)
    ensures r.Keys == KeysOf(base)
    ensures forall e :: e in base && (forall f :: f in base && f.0 == e.0 ==> f == e) ==>
              r[e.0] == e.1 + Get(bonus, e.0, 0)
  {
    r := map[];
    var i := 0;
    while i < |base|
      invariant 0 <= i <= |base|
      invariant r.Keys == KeysOf(base[..i])
      invariant forall e :: e in base[..i] && (forall f :: f in base[..i] && f.0 == e.0 ==> f == e) ==>
                  r[e.0] == e.1 + Get(bonus, e.0, 0)
    {
      assert base[..i + 1] == base[..i] + [base[i]];
      r := r[base[i].0 := base[i].1 + Get(bonus, base[i].0, 0)];
      i := i + 1;
    }
    assert base[..i] == base;
  }

  /** Mana from the race's ability scores: 20 + 2 x intelligence + wisdom, absent scores counting 0. */
  function ManaFor(abilityScores: map<string, int>): int
  {
    20 + Get(abilityScores, "intelligence", 0) * 2 + Get(abilityScores, "wisdom", 0)
  }

  /** The first module-load loop: every race gets base and max mana. */
  method AddMana(races: seq<(string, RaceSetup)>) returns (r: seq<(string, RaceSetup)>)
    ensures |r| == |races|
    ensures forall i :: 0 <= i < |r| ==>
              r[i].0 == races[i].0 &&
              r[i].1 == races[i].1.(baseMana := ManaFor(races[i].1.abilityScores),
                                    maxMana := ManaFor(races[i].1.abilityScores))
  {
    r := [];
    var i := 0;
    while i < |races|
      invariant 0 <= i <= |races| && |r| == i
      invariant forall j :: 0 <= j < i ==>
                  r[j].0 == races[j].0 &&
                  r[j].1 == races[j].1.(baseMana := ManaFor(races[j].1.abilityScores),
                                        maxMana := ManaFor(races[j].1.abilityScores))
    {
      var cfg := races[i].1;
      var mana := 20 + Get(cfg.abilityScores, "intelligence", 0) * 2 + Get(cfg.abilityScores, "wisdom", 0);
      r := r + [(races[i].0, cfg.(baseMana := mana, maxMana := mana))];
      i := i + 1;
    }
  }

  /** The mana cost per spell level. */
  const SpellManaCosts: map<string, int> := map["1" := 5, "2" := 10]

  datatype Spell = Spell(name: string, manaCost: Option<int>)

  /** The second and third module-load loops: every spell of a level gets that level's cost. */
  method AssignManaCost(spells: seq<Spell>, level: string) returns (r: seq<Spell>)
    requires level in SpellManaCosts
    ensures |r| == |spells|
    ensures forall i :: 0 <= i < |r| ==> r[i] == spells[i].(manaCost := Some(SpellManaCosts[level]))
  {
    r := [];
    var i := 0;
    while i < |spells|
      invariant 0 <= i <= |spells| && |r| == i
      invariant forall j :: 0 <= j < i ==> r[j] == spells[j].(manaCost := Some(SpellManaCosts[level]))
    {
      r := r + [spells[i].(manaCost := Some(SpellManaCosts[level]))];
      i := i + 1;
    }
  }

  // ---------------------------------------------------------------------------
  // Distance, movement, difficulty

  /** `calculate_distance`: the larger of the column and row differences. */
  function CalculateDistance(col1: int, row1: int, col2: int, row2: int): (d: nat)
    ensures d == Max(Abs(col1 - col2), Abs(row1 - row2))
    ensures d == Geometry.Chebyshev(Cell(col2, row2), Cell(col1, row1))
    ensures d == 0 <==> col1 == col2 && row1 == row2
  {
    Geometry.Chebyshev(Cell(col1, row1), Cell(col2, row2))
  }

  /** `move_toward_player`: one step per coordinate, never past the player; `speed` is not used. */
  function MoveTowardPlayer(enemy: Cell, player: Cell, speed: int): (next: Cell)
    ensures Geometry.Chebyshev(enemy, next) <= 1
    ensures Geometry.Chebyshev(next, player) == if enemy == player then 0 else Geometry.Chebyshev(enemy, player) - 1
    ensures Abs(next.col - player.col) <= Abs(enemy.col - player.col)
    ensures Abs(next.row - player.row) <= Abs(enemy.row - player.row)
  {
    Geometry.StepTowardCloses(enemy, player);
    Geometry.StepToward(enemy, player)
  }

  /** `get_enemy_for_difficulty`: easy is the goblin, hard the orc, anything else the random choice. */
  function GetEnemyForDifficulty(difficulty: string, choice: string): (e: string)
    requires choice == "goblin" || choice == "orc"
    ensures e == "goblin" || e == "orc"
    ensures difficulty == "easy" ==> e == "goblin"
    ensures difficulty == "hard" ==> e == "orc"
    ensures difficulty != "easy" && difficulty != "hard" ==> e == choice
  {
    if difficulty == "easy" then "goblin" else if difficulty == "hard" then "orc" else choice
  }

  // ---------------------------------------------------------------------------
  // Dice notation

  datatype DiceError = MissingNotation | InvalidNotation | InvalidFormat

  datatype Notation = Notation(count: int, sides: int, modifier: int)

  datatype RollResult = RollResult(rolls: seq<int>, total: int, modifier: int)

  /**
   * The notation parse of `roll_dice`: lower-case, drop spaces, split on 'd'
   * into exactly two parts; an empty count is 1; a '+' splits sides from the
   * modifier; every part must read as a Python int.
   */
  function ParseNotation(notation: Option<string>): (r: Result<Notation, DiceError>)
    ensures r == Err(MissingNotation) <==> notation.None? || notation.value == ""
    ensures (notation.Some? && notation.value != "" &&
             Text.Count(Normalize(notation.value), 'd') != 1) ==> r == Err(InvalidNotation)
  {
    if notation.None? || notation.value == "" then Err(MissingNotation)
    else ParseParts(Text.Split(Normalize(notation.value), 'd'))
  }

  /** Lower-cased with the spaces removed. */
  function Normalize(s: string): string
  {
    Text.Remove(Text.Lower(s), {' '})
  }

  /** The notation from the pieces around 'd'; never the missing-notation error. */
  function ParseParts(parts: seq<string>): (r: Result<Notation, DiceError>)
    ensures r != Err(MissingNotation)
    ensures |parts| != 2 <==> r == Err(InvalidNotation)
  {
    if |parts| != 2 then Err(InvalidNotation)
    else
      var count := if parts[0] == "" then Some(1) else Text.PyInt(parts[0]);
      var sidesParts := Text.Split(parts[1], '+');
      var sides := if |sidesParts| > 1 then Text.PyInt(sidesParts[0]) else Text.PyInt(parts[1]);
      var modifier := if |sidesParts| > 1 then Text.PyInt(sidesParts[1]) else Some(0);
      if count.None? || sides.None? || modifier.None? then Err(InvalidFormat)
      else Ok(Notation(count.value, sides.value, modifier.value))
  }

  /** The rolls `randint(1, sides)` produces for a parsed notation. */
  predicate RollsFor(notation: Option<string>, rolls: seq<int>)
  {
    match ParseNotation(notation)
    case Err(_) => rolls == []
    case Ok(n) =>
      if n.count > 0 && n.sides < 1 then rolls == []
      else |rolls| == Max(n.count, 0) && AllIn(rolls, 1, n.sides)
  }

  /** `roll_dice`: the rolls and their sum plus the modifier; `randint` on an empty range is the format error. */
  function RollDice(notation: Option<string>, rolls: seq<int>): (r: Result<RollResult, DiceError>)
    requires RollsFor(notation, rolls)
    ensures ParseNotation(notation).Err? ==> r == Err(ParseNotation(notation).error)
    ensures ParseNotation(notation).Ok? ==>
      var n := ParseNotation(notation).value;
      (r.Err? <==> n.count > 0 && n.sides < 1) &&
      (r.Ok? ==> r.value.total == Sum(rolls) + n.modifier && r.value.modifier == n.modifier &&
                 r.value.rolls == rolls)
  {
    match ParseNotation(notation)
    case Err(e) => Err(e)
    case Ok(n) =>
      if n.count > 0 && n.sides < 1 then Err(InvalidFormat)
      else Ok(RollResult(rolls, Sum(rolls) + n.modifier, n.modifier))
  }

  /** The total lies between count + modifier and count x sides + modifier. */
  lemma RollTotalBounds(notation: Option<string>, rolls: seq<int>)
    requires RollsFor(notation, rolls) && RollDice(notation, rolls).Ok?
    ensures var n := ParseNotation(notation).value;
      var t := RollDice(notation, rolls).value.total;
      Max(n.count, 0) + n.modifier <= t <= Max(n.count, 0) * n.sides + n.modifier
  {
    var n := ParseNotation(notation).value;
    SumBounds(rolls, 1, n.sides);
  }

  /** The canonical spelling of a notation with non-negative parts. */
  function Format(count: nat, sides: nat, modifier: nat): string
  {
    Text.Decimal(count) + "d" + Text.Decimal(sides) + (if modifier == 0 then "" else "+" + Text.Decimal(modifier))
  }

  /** No upper-case letter and no space: lower-casing and dropping spaces leave it alone. */
  predicate Clean(s: string)
  {
    forall i :: 0 <= i < |s| ==> !('A' <= s[i] <= 'Z') && s[i] != ' '
  }

  lemma CleanUntouched(s: string)
    requires Clean(s)
    ensures Text.Lower(s) == s && Text.Remove(s, {' '}) == s
  {
    Text.LowerFixed(s);
    Text.RemoveFixed(s, {' '});
  }

  lemma CleanAppend(a: string, b: string)
    requires Clean(a) && Clean(b)
    ensures Clean(a + b)
  {
    forall i | 0 <= i < |a + b| ensures !('A' <= (a + b)[i] <= 'Z') && (a + b)[i] != ' ' {
      if i < |a| { assert (a + b)[i] == a[i]; } else { assert (a + b)[i] == b[i - |a|]; }
    }
  }

  /** Decimal digits are clean and hold neither 'd' nor '+'. */
  lemma DecimalClean(n: nat)
    ensures Clean(Text.Decimal(n)) && 'd' !in Text.Decimal(n) && '+' !in Text.Decimal(n)
  {
    var d := Text.Decimal(n);
    forall i | 0 <= i < |d| ensures !('A' <= d[i] <= 'Z') && d[i] != ' ' && d[i] != 'd' && d[i] != '+' {
      assert Text.IsDigit(d[i]);
    }
  }

  /** What follows the 'd' of a formatted notation. */
  function FormatTail(sides: nat, modifier: nat): string
  {
    Text.Decimal(sides) + (if modifier == 0 then "" else "+" + Text.Decimal(modifier))
  }

  lemma FormatTailShape(sides: nat, modifier: nat)
    ensures Clean(FormatTail(sides, modifier)) && 'd' !in FormatTail(sides, modifier)
    ensures modifier == 0 ==> Text.Split(FormatTail(sides, modifier), '+') == [Text.Decimal(sides)]
    ensures modifier != 0 ==> Text.Split(FormatTail(sides, modifier), '+') == [Text.Decimal(sides), Text.Decimal(modifier)]
  {
    var s := Text.Decimal(sides);
    DecimalClean(sides);
    if modifier == 0 {
      assert FormatTail(sides, modifier) == s;
      Text.NoSepSplit(s, '+');
    } else {
      var m := Text.Decimal(modifier);
      DecimalClean(modifier);
      assert FormatTail(sides, modifier) == s + ['+'] + m;
      CleanAppend(s, "+");
      CleanAppend(s + "+", m);
      assert s + "+" + m == s + ['+'] + m;
      Text.SplitAppend(s, m, '+');
      Text.NoSepSplit(m, '+');
    }
  }

  lemma FormatClean(count: nat, sides: nat, modifier: nat)
    ensures Clean(Format(count, sides, modifier))
    ensures Format(count, sides, modifier) == Text.Decimal(count) + ['d'] + FormatTail(sides, modifier)
  {
    var c, tail := Text.Decimal(count), FormatTail(sides, modifier);
    DecimalClean(count);
    FormatTailShape(sides, modifier);
    CleanAppend(c, "d");
    CleanAppend(c + "d", tail);
    assert c + "d" + tail == Format(count, sides, modifier);
  }

  /** A clean notation with exactly one 'd' parses into the two sides of it. */
  lemma CleanSplit(f: string, c: string, tail: string)
    requires Clean(f) && f == c + ['d'] + tail && 'd' !in c && 'd' !in tail
    ensures Text.Split(Normalize(f), 'd') == [c, tail]
  {
    CleanUntouched(f);
    Text.SplitAppend(c, tail, 'd');
    Text.NoSepSplit(tail, 'd');
  }

  /** A formatted notation splits on 'd' into its count and the rest. */
  lemma FormatSplit(count: nat, sides: nat, modifier: nat)
    ensures Text.Split(Normalize(Format(count, sides, modifier)), 'd') ==
            [Text.Decimal(count), FormatTail(sides, modifier)]
  {
    FormatClean(count, sides, modifier);
    DecimalClean(count);
    FormatTailShape(sides, modifier);
    CleanSplit(Format(count, sides, modifier), Text.Decimal(count), FormatTail(sides, modifier));
  }

  /** The parse of a notation whose sides carry no modifier. */
  lemma ParseWithoutModifier(v: string, c: string, tail: string, count: int, sides: int)
    requires v != "" && Text.Split(Normalize(v), 'd') == [c, tail]
    requires (if c == "" then Some(1) else Text.PyInt(c)) == Some(count)
    requires Text.Split(tail, '+') == [tail] && Text.PyInt(tail) == Some(sides)
    ensures ParseNotation(Some(v)) == Ok(Notation(count, sides, 0))
  {
    assert ParseParts([c, tail]) == Ok(Notation(count, sides, 0));
  }

  /** The parse of a notation whose sides are followed by '+' and a modifier. */
  lemma ParseWithModifier(v: string, c: string, tail: string, s: string, m: string, count: int, sides: int, modifier: int)
    requires v != "" && Text.Split(Normalize(v), 'd') == [c, tail]
    requires (if c == "" then Some(1) else Text.PyInt(c)) == Some(count)
    requires Text.Split(tail, '+') == [s, m] && Text.PyInt(s) == Some(sides) && Text.PyInt(m) == Some(modifier)
    ensures ParseNotation(Some(v)) == Ok(Notation(count, sides, modifier))
  {
    assert ParseParts([c, tail]) == Ok(Notation(count, sides, modifier));
  }

  /** Parsing the canonical spelling gives the notation back. */
  lemma ParseFormat(count: nat, sides: nat, modifier: nat)
    ensures ParseNotation(Some(Format(count, sides, modifier))) == Ok(Notation(count, sides, modifier))
  {
    var f, c, tail := Format(count, sides, modifier), Text.Decimal(count), FormatTail(sides, modifier);
    FormatClean(count, sides, modifier);
    FormatSplit(count, sides, modifier);
    FormatTailShape(sides, modifier);
    Text.PyIntDecimal(count);
    Text.PyIntDecimal(sides);
    if modifier == 0 {
      assert tail == Text.Decimal(sides);
      ParseWithoutModifier(f, c, tail, count, sides);
    } else {
      Text.PyIntDecimal(modifier);
      ParseWithModifier(f, c, tail, Text.Decimal(sides), Text.Decimal(modifier), count, sides, modifier);
    }
  }

  /** A missing count means one die. */
  lemma EmptyCountIsOne(sides: nat)
    ensures ParseNotation(Some("d" + Text.Decimal(sides))) == Ok(Notation(1, sides, 0))
  {
    var s := Text.Decimal(sides);
    var f := "d" + s;
    DecimalClean(sides);
    CleanAppend("d", s);
    assert f == [] + ['d'] + s;
    CleanSplit(f, [], s);
    Text.NoSepSplit(s, '+');
    Text.PyIntDecimal(sides);
    ParseWithoutModifier(f, [], s, 1, sides);
  }

  // ---------------------------------------------------------------------------
  // Hit checks and the enemy's turn

  datatype HitCheck = HitCheck(roll: int, hit: bool, critical: bool)

  /** `check_hit`: 11 or more hits, a natural 20 is critical. */
  function CheckHit(roll: int): (h: HitCheck)
    requires 1 <= roll <= 20
    ensures h.hit <==> roll > 10
    ensures h.critical <==> roll == 20
    ensures h.critical ==> h.hit
  {
    HitCheck(roll, roll > 10, roll == 20)
  }

  datatype Ability = Ability(name: string, damage: string, range: int)

  datatype EnemyConfig = EnemyConfig(name: string, speed: int, abilities: seq<Ability>,
                                     mana: Option<int>, maxMana: Option<int>)

  /** The enemy table of the battlefield configuration; abilities in their dict order. */
  const EnemyConfigs: map<string, EnemyConfig> := map[
    "goblin" := EnemyConfig("Goblin", 25, [Ability("Bow Attack", "1d6", 4), Ability("Melee Attack", "1d8", 1)], None, None),
    "orc" := EnemyConfig("Orc", 20, [Ability("Greataxe", "1d12", 1), Ability("Javelin", "1d6", 3)], None, None)
  ]

  /** The first ability, in order, whose range reaches `distance`. */
  function FirstInRange(abilities: seq<Ability>, distance: int): (r: Option<nat>)
    ensures r.Some? ==> r.value < |abilities| && distance <= abilities[r.value].range &&
                        forall j :: 0 <= j < r.value ==> abilities[j].range < distance
    ensures r.None? ==> forall j :: 0 <= j < |abilities| ==> abilities[j].range < distance
  {
    if abilities == [] then None
    else if distance <= abilities[0].range then Some(0)
    else match FirstInRange(abilities[1..], distance)
      case None => None
      case Some(k) => Some(k + 1)
  }

  /** The loop over the abilities with its `break`. */
  method ChooseAbility(abilities: seq<Ability>, distance: int) returns (chosen: Option<nat>)
    ensures chosen == FirstInRange(abilities, distance)
  {
    var i := 0;
    while i < |abilities|
      invariant 0 <= i <= |abilities|
      invariant forall j :: 0 <= j < i ==> abilities[j].range < distance
    {
      if distance <= abilities[i].range {
        FirstInRangeUnique(abilities, distance, i);
        return Some(i);
      }
      i := i + 1;
    }
    chosen := None;
  }

  lemma FirstInRangeUnique(abilities: seq<Ability>, distance: int, i: nat)
    requires i < |abilities| && distance <= abilities[i].range
    requires forall j :: 0 <= j < i ==> abilities[j].range < distance
    ensures FirstInRange(abilities, distance) == Some(i)
  {
  }

  /** `NdS` of an ability's damage: the two parts around 'd' as Python ints. */
  function DamageDice(damage: string): Option<(int, int)>
  {
    var parts := Text.Split(damage, 'd');
    if |parts| < 2 then None
    else match (Text.PyInt(parts[0]), Text.PyInt(parts[1]))
      case (Some(c), Some(s)) => Some((c, s))
      case _ => None
  }

  datatype TurnResult =
    | Attack(abilityName: string, roll: int, hit: bool, damage: int, damageRolls: seq<int>)
    | Move(newPosition: Cell)
    | Failed

  /** The rolls the enemy's attack needs when it hits. */
  predicate DamageRollsFit(a: Ability, rolls: seq<int>)
  {
    match DamageDice(a.damage)
    case None => rolls == []
    case Some((c, s)) => |rolls| == Max(c, 0) && AllIn(rolls, 1, s)
  }

  /** Mana regained at the end of the enemy's turn, only for an enemy that has mana. */
  function RestoredMana(mana: Option<int>, maxMana: Option<int>): (r: Option<int>)
    ensures mana.None? ==> r.None?
    ensures mana.Some? ==> r == Some(Min(mana.value + 5, match maxMana case Some(m) => m case None => 0))
  {
    match mana
    case None => None
    case Some(m) => Some(Min(m + 5, match maxMana case Some(x) => x case None => 0))
  }

  /**
   * `enemy_turn`: the first ability in range attacks (a hit is a roll over
   * 10 and deals the sum of its dice, a miss deals 0); with none in range
   * the enemy steps toward the player. Missing positions and an unknown enemy
   * type take the route's defaults.
   */
  method EnemyTurn(enemyType: string, enemyPosition: Option<Cell>, playerPosition: Option<Cell>,
                   hitRoll: int, damageRolls: seq<int>) returns (result: TurnResult, mana: Option<int>)
    requires 1 <= hitRoll <= 20
    requires var cfg := if enemyType in EnemyConfigs then EnemyConfigs[enemyType] else EnemyConfigs["goblin"];
      var enemy := match enemyPosition case Some(c) => c case None => Cell(8, 5);
      var player := match playerPosition case Some(c) => c case None => Cell(2, 5);
      var choice := FirstInRange(cfg.abilities, Geometry.Chebyshev(enemy, player));
      choice.Some? ==> DamageRollsFit(cfg.abilities[choice.value], damageRolls)
    ensures var cfg := if enemyType in EnemyConfigs then EnemyConfigs[enemyType] else EnemyConfigs["goblin"];
      var enemy := match enemyPosition case Some(c) => c case None => Cell(8, 5);
      var player := match playerPosition case Some(c) => c case None => Cell(2, 5);
      var choice := FirstInRange(cfg.abilities, Geometry.Chebyshev(enemy, player));
      (choice.None? ==> result == Move(Geometry.StepToward(enemy, player))) &&
      (choice.Some? ==> var a := cfg.abilities[choice.value];
        if hitRoll <= 10 then result == Attack(a.name, hitRoll, false, 0, [])
        else if DamageDice(a.damage).None? then result == Failed
        else result == Attack(a.name, hitRoll, true, Sum(damageRolls), damageRolls)) &&
      mana == RestoredMana(cfg.mana, cfg.maxMana)
  {
    var cfg := if enemyType in EnemyConfigs then EnemyConfigs[enemyType] else EnemyConfigs["goblin"];
    var enemy := match enemyPosition case Some(c) => c case None => Cell(8, 5);
    var player := match playerPosition case Some(c) => c case None => Cell(2, 5);
    var distance := CalculateDistance(enemy.col, enemy.row, player.col, player.row);
    var choice := ChooseAbility(cfg.abilities, distance);
    if choice.Some? {
      var a := cfg.abilities[choice.value];
      var hit := hitRoll > 10;
      if hit {
        var dice := DamageDice(a.damage);
        if dice.None? {
          result := Failed;
        } else {
          result := Attack(a.name, hitRoll, true, Sum(damageRolls), damageRolls);
        }
      } else {
        result := Attack(a.name, hitRoll, false, 0, []);
      }
    } else {
      result := Move(MoveTowardPlayer(enemy, player, cfg.speed));
    }
    mana := RestoredMana(cfg.mana, cfg.maxMana);
  }

  /** Every configured ability rolls a single die of at least six sides. */
  lemma ConfiguredDice(enemyType: string, a: Ability)
    requires enemyType in EnemyConfigs && a in EnemyConfigs[enemyType].abilities
    ensures DamageDice(a.damage).Some? && DamageDice(a.damage).value.0 == 1 && DamageDice(a.damage).value.1 >= 6
  {
    if a.damage == "1d6" {
      OneDie(a.damage, 6, "6");
    } else if a.damage == "1d8" {
      OneDie(a.damage, 8, "8");
    } else {
      OneDie(a.damage, 12, "12");
    }
  }

  lemma OneDie(damage: string, sides: nat, digits: string)
    requires digits == Text.Decimal(sides) && damage == "1d" + digits
    ensures DamageDice(damage) == Some((1, sides))
  {
    assert Text.Decimal(1) == "1";
    assert damage == Text.Decimal(1) + "d" + Text.Decimal(sides);
    DamageDiceFormat(1, sides);
  }

  /** Neither configured enemy has mana to restore at the end of its turn. */
  lemma ConfiguredEnemiesHaveNoMana(enemyType: string)
    requires enemyType in EnemyConfigs
    ensures RestoredMana(EnemyConfigs[enemyType].mana, EnemyConfigs[enemyType].maxMana).None?
  {
  }

  /** The damage of `count`d`sides` reads back as the pair. */
  lemma DamageDiceFormat(count: nat, sides: nat)
    ensures DamageDice(Text.Decimal(count) + "d" + Text.Decimal(sides)) == Some((count, sides))
  {
    var c, s := Text.Decimal(count), Text.Decimal(sides);
    DecimalClean(count);
    DecimalClean(sides);
    assert c + "d" + s == c + ['d'] + s;
    Text.SplitAppend(c, s, 'd');
    Text.NoSepSplit(s, 'd');
    Text.PyIntDecimal(count);
    Text.PyIntDecimal(sides);
  }

  /** The goblin's bow outranges its melee attack and is listed first, so the melee attack is never chosen. */
  lemma GoblinNeverMelees(distance: int)
    ensures FirstInRange(EnemyConfigs["goblin"].abilities, distance) != Some(1)
  {
  }
}
