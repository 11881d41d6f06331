/**
 * The console game engine of DEF.py: one player, at most one enemy, a
 * three-exchange chat history and the combat state machine. Dice rolls and
 * `random.choice` arrive as parameters; the language model's narration is an
 * opaque reply string.
 */
module DnD {
  import opened Common
  import Text
  import CharacterConfig

  type Range = CharacterConfig.Range
  type EnemyTemplate = CharacterConfig.EnemyTemplate

  predicate InRange(x: int, r: Range)
  {
    r.lo <= x <= r.hi
  }

  /** The player's numeric fields. */
  datatype Hero = Hero(gold: int, magic1: int, magic2: int, level: int, hp: int, damage: int)

  /** The enemy dict: a copy of a template plus its name and current hp. */
  datatype Enemy = Enemy(name: string, hp: int, damage: Range, xp: int, gold: Range, currentHp: int)

  /** Everything a combat action reads or writes. */
  datatype Combat = Combat(hero: Hero, inCombat: bool, enemy: Option<Enemy>)

  /** One entry of the chat history. */
  datatype Turn = Turn(user: string, dm: string)

  /** The values `randint` would give on each branch of a combat action. */
  datatype Rolls = Rolls(flee: int, attack: int, spell: int, enemyDamage: int, gold: int)

  /** What `process_combat_action` answers; Unmatched is its implicit None. */
  datatype Outcome =
    | NotInCombat
    | Fled
    | FleeFailed(taken: int)
    | Victory(goldReward: int, xp: int, levelUp: bool, bySpell: bool)
    | Defeated
    | Exchanged(dealt: int, taken: int, bySpell: bool)
    | NoSlots
    | Unmatched

  /** What `send_message` answers: model narration, or the combat engine's outcome. */
  datatype Reply = Said(text: string) | Acted(outcome: Outcome)

  predicate TemplateOk(t: EnemyTemplate)
  {
    t.damage.lo <= t.damage.hi && t.gold.lo <= t.gold.hi
  }

  /** The invariant every operation keeps. */
  predicate WellFormed(c: Combat)
  {
    c.hero.damage >= 1 && c.hero.magic1 >= 0 &&
    (c.inCombat <==> c.enemy.Some?) &&
    (c.enemy.Some? ==> c.enemy.value.damage.lo <= c.enemy.value.damage.hi &&
                       c.enemy.value.gold.lo <= c.enemy.value.gold.hi)
  }

  /** The rolls `randint` can produce in this state. */
  predicate RollsFit(c: Combat, r: Rolls)
  {
    1 <= r.flee <= 20 && 1 <= r.attack <= c.hero.damage && 3 <= r.spell <= 10 &&
    (c.enemy.Some? ==> InRange(r.enemyDamage, c.enemy.value.damage) && InRange(r.gold, c.enemy.value.gold))
  }

  /** A defeated enemy's rewards; level-up when it was worth at least 100 xp. */
  function Reward(h: Hero, e: Enemy, goldRoll: int): Hero
  {
    var up := e.xp >= 100;
    h.(gold := h.gold + goldRoll,
       level := if up then h.level + 1 else h.level,
       hp := if up then h.hp + 5 else h.hp,
       damage := if up then h.damage + 1 else h.damage)
  }

  /** A hit of `dealt` on the enemy, then victory or the enemy's counter-attack. */
  function Strike(c: Combat, dealt: int, bySpell: bool, r: Rolls): (Combat, Outcome)
    requires c.enemy.Some?
  {
    var e := c.enemy.value.(currentHp := c.enemy.value.currentHp - dealt);
    if e.currentHp <= 0 then
      (Combat(Reward(c.hero, e, r.gold), false, None), Victory(r.gold, e.xp, e.xp >= 100, bySpell))
    else
      var h := c.hero.(hp := c.hero.hp - r.enemyDamage);
      if h.hp <= 0 then (Combat(h, false, None), Defeated)
      else (Combat(h, true, Some(e)), Exchanged(dealt, r.enemyDamage, bySpell))
  }

  /** One combat action on an already lower-cased action string. */
  function CombatStep(c: Combat, action: string, r: Rolls): (Combat, Outcome)
  {
    if !c.inCombat || c.enemy.None? then (c, NotInCombat)
    else if action == "flee" then
      if r.flee > 12 then (c.(inCombat := false, enemy := None), Fled)
      else (c.(hero := c.hero.(hp := c.hero.hp - r.enemyDamage)), FleeFailed(r.enemyDamage))
    else if action == "attack" then Strike(c, r.attack, false, r)
    else if action == "spell" then
      if c.hero.magic1 <= 0 then (c, NoSlots)
      else Strike(c.(hero := c.hero.(magic1 := c.hero.magic1 - 1)), r.spell, true, r)
    else (c, Unmatched)
  }

  /** The prompt `start_combat` sends; only its shape matters to the dispatch. */
  function Announcement(enemyType: string, enemyHp: int, playerHp: int): (s: string)
    ensures |s| > 6
  {
    "A " + enemyType + " appears! Combat starts!\nEnemy HP: " + Text.IntString(enemyHp) +
    "\nYour HP: " + Text.IntString(playerHp) + "\n\nWhat do you do? (attack/spell/flee)"
  }

  // ---------------------------------------------------------------------------
  // Properties of the combat step

  /** Outside combat nothing changes. */
  lemma NotInCombatNoChange(c: Combat, action: string, r: Rolls)
    requires !c.inCombat || c.enemy.None?
    ensures CombatStep(c, action, r) == (c, NotInCombat)
  {
  }

  /** Any word other than flee, attack and spell leaves the state as it was. */
  lemma UnknownActionNoChange(c: Combat, action: string, r: Rolls)
    requires action != "flee" && action != "attack" && action != "spell"
    ensures CombatStep(c, action, r).0 == c
    ensures c.inCombat && c.enemy.Some? ==> CombatStep(c, action, r).1 == Unmatched
  {
  }

  /** A successful flee ends combat and costs nothing; a failed one costs a counter-hit. */
  lemma FleeRule(c: Combat, r: Rolls)
    requires WellFormed(c) && c.inCombat && RollsFit(c, r)
    ensures var (c', o) := CombatStep(c, "flee", r);
      if r.flee > 12 then
        !c'.inCombat && c'.enemy.None? && c'.hero == c.hero && o == Fled
      else
        c'.inCombat && c'.enemy == c.enemy &&
        c'.hero == c.hero.(hp := c'.hero.hp) &&
        c.hero.hp - c.enemy.value.damage.hi <= c'.hero.hp <= c.hero.hp - c.enemy.value.damage.lo
  {
  }

  /** Attack deals 1..damage, a spell 3..10; either way the enemy's hp strictly drops. */
  lemma StrikeLowersEnemy(c: Combat, action: string, r: Rolls)
    requires WellFormed(c) && c.inCombat && RollsFit(c, r)
    requires action == "attack" || (action == "spell" && c.hero.magic1 > 0)
    ensures var (c', o) := CombatStep(c, action, r);
      match o
      case Victory(_, _, _, _) => c.enemy.value.currentHp <= (if action == "attack" then c.hero.damage else 10)
      case Exchanged(dealt, _, _) =>
        c'.enemy.Some? && c'.enemy.value.currentHp == c.enemy.value.currentHp - dealt &&
        (if action == "attack" then 1 <= dealt <= c.hero.damage else 3 <= dealt <= 10) &&
        c'.enemy.value.currentHp < c.enemy.value.currentHp
      case Defeated => !c'.inCombat && c'.enemy.None? && c'.hero.hp <= 0
      case _ => false
  {
  }

  /** Victory: gold in the enemy's range; level, hp and damage up by 1, 5, 1 exactly when xp >= 100. */
  lemma VictoryRule(c: Combat, action: string, r: Rolls)
    requires WellFormed(c) && c.inCombat && RollsFit(c, r)
    requires CombatStep(c, action, r).1.Victory?
    ensures var c' := CombatStep(c, action, r).0;
      var e := c.enemy.value;
      !c'.inCombat && c'.enemy.None? &&
      e.gold.lo <= c'.hero.gold - c.hero.gold <= e.gold.hi &&
      (e.xp >= 100 ==> c'.hero.level == c.hero.level + 1 && c'.hero.hp == c.hero.hp + 5 &&
                       c'.hero.damage == c.hero.damage + 1) &&
      (e.xp < 100 ==> c'.hero.level == c.hero.level && c'.hero.hp == c.hero.hp &&
                      c'.hero.damage == c.hero.damage)
  {
  }

  /** A spell needs a first-level slot and uses exactly one. */
  lemma SpellSlots(c: Combat, r: Rolls)
    requires WellFormed(c) && c.inCombat
    ensures var (c', o) := CombatStep(c, "spell", r);
      if c.hero.magic1 <= 0 then c' == c && o == NoSlots
      else c'.hero.magic1 == c.hero.magic1 - 1
  {
  }

  /** A counter-attack that takes hp to 0 or below ends combat. */
  lemma CounterAttackEndsCombat(c: Combat, action: string, r: Rolls)
    requires c.inCombat && c.enemy.Some?
    requires action == "attack" || action == "spell"
    ensures var (c', o) := CombatStep(c, action, r);
      o.Exchanged? ==> c'.inCombat && c'.hero.hp > 0
    ensures var (c', o) := CombatStep(c, action, r);
      o.Defeated? ==> !c'.inCombat && c'.enemy.None? && c'.hero.hp <= 0
  {
  }

  /** Every combat step keeps the invariant (slots never go negative, damage stays >= 1). */
  lemma CombatStepKeepsInvariant(c: Combat, action: string, r: Rolls)
    requires WellFormed(c)
    ensures WellFormed(CombatStep(c, action, r).0)
  {
  }

  /**
   * The announcement `start_combat` sends is never a command word, so once
   * combat has started it falls through every branch of the combat step.
   */
  lemma AnnouncementUnmatched(c: Combat, enemyType: string, enemyHp: int, playerHp: int, r: Rolls)
    requires c.inCombat && c.enemy.Some?
    ensures CombatStep(c, Text.Lower(Announcement(enemyType, enemyHp, playerHp)), r) == (c, Unmatched)
  {
    var a := Text.Lower(Announcement(enemyType, enemyHp, playerHp));
    assert |a| > 6;
  }

  // ---------------------------------------------------------------------------
  // The game object

  class Game {
    var gold: int
    var magic1: int
    var magic2: int
    var level: int
    var hp: int
    var damage: int
    var race: string
    var className: string
    var inCombat: bool
    var enemy: Option<Enemy>
    var history: seq<Turn>
    var enemies: map<string, EnemyTemplate>

    function Snapshot(): Combat
      reads this
    {
      Combat(Hero(gold, magic1, magic2, level, hp, damage), inCombat, enemy)
    }

    predicate Valid()
      reads this
    {
      |history| <= 3 && WellFormed(Snapshot()) &&
      forall t :: t in enemies ==> TemplateOk(enemies[t])
    }

    /** A new game: everything zero except the damage, which is rolled in 1..10. */
    constructor (damageRoll: int)
      requires 1 <= damageRoll <= 10
      ensures Valid()
      ensures Snapshot() == Combat(Hero(0, 0, 0, 0, 0, damageRoll), false, None)
      ensures race == "" && className == "" && history == []
      ensures enemies == CharacterConfig.ShadowedEnemies
    {
      gold, magic1, magic2, level, hp := 0, 0, 0, 0, 0;
      damage := damageRoll;
      race, className := "", "";
      inCombat, enemy := false, None;
      history := [];
      // DEF.py's enemy list holds the same eight entries as the first ENEMIES table.
      enemies := CharacterConfig.ShadowedEnemies;
      CharacterConfig.EnemiesWellFormed();
    }

    /** Appends one exchange and drops the oldest when there are more than three. */
    method AddToHistory(user: string, dm: string)
      requires Valid()
      modifies this`history
      ensures Valid()
      ensures history == KeepLast(old(history) + [Turn(user, dm)], 3)
    {
      history := history + [Turn(user, dm)];
      if |history| > 3 {
        history := history[1..];
      }
    }

    /** `process_combat_action`: the action is lower-cased, then one combat step runs. */
    method ProcessCombatAction(action: string, r: Rolls) returns (o: Outcome)
      requires Valid()
      modifies this
      ensures Valid()
      ensures (Snapshot(), o) == CombatStep(old(Snapshot()), Text.Lower(action), r)
      ensures history == old(history) && enemies == old(enemies)
      ensures race == old(race) && className == old(className)
    {
      if !inCombat || enemy.None? {
        return NotInCombat;
      }
      var a := Text.Lower(action);
      if a == "flee" {
        if r.flee > 12 {
          inCombat := false;
          enemy := None;
          return Fled;
        }
        hp := hp - r.enemyDamage;
        return FleeFailed(r.enemyDamage);
      } else if a == "attack" {
        o := Hit(r.attack, false, r);
      } else if a == "spell" {
        if magic1 <= 0 {
          return NoSlots;
        }
        magic1 := magic1 - 1;
        o := Hit(r.spell, true, r);
      } else {
        o := Unmatched;
      }
    }

    /** The shared tail of attack and spell: damage the enemy, then reward or counter-attack. */
    method Hit(dealt: int, bySpell: bool, r: Rolls) returns (o: Outcome)
      requires WellFormed(Snapshot()) && inCombat && enemy.Some?
      modifies this`gold, this`level, this`hp, this`damage, this`inCombat, this`enemy
      ensures (Snapshot(), o) == Strike(old(Snapshot()), dealt, bySpell, r)
    {
      var e := enemy.value.(currentHp := enemy.value.currentHp - dealt);
      enemy := Some(e);
      if e.currentHp <= 0 {
        gold := gold + r.gold;
        if e.xp >= 100 {
          level := level + 1;
          hp := hp + 5;
          damage := damage + 1;
        }
        inCombat := false;
        enemy := None;
        return Victory(r.gold, e.xp, e.xp >= 100, bySpell);
      }
      hp := hp - r.enemyDamage;
      if hp <= 0 {
        inCombat := false;
        enemy := None;
        return Defeated;
      }
      o := Exchanged(dealt, r.enemyDamage, bySpell);
    }

    /** Puts a fresh copy of the named template in play and enters combat. */
    method EnterCombat(enemyType: string)
      requires Valid() && enemyType in enemies
      modifies this`inCombat, this`enemy
      ensures Valid()
      ensures var t := enemies[enemyType];
        enemy == Some(Enemy(enemyType, t.hp, t.damage, t.xp, t.gold, t.hp))
      ensures inCombat
    {
      var t := enemies[enemyType];
      enemy := Some(Enemy(enemyType, t.hp, t.damage, t.xp, t.gold, t.hp));
      inCombat := true;
    }

    /**
     * `start_combat` as written: the announcement goes through `send_message`,
     * which, with `in_combat` already set, hands it to the combat engine, where
     * no branch matches, so the call returns None.
     */
    method StartCombatAsWritten(enemyType: string) returns (reply: Reply)
      requires Valid() && enemyType in enemies
      modifies this
      ensures Valid() && inCombat && enemies == old(enemies) && history == old(history)
      ensures var t := enemies[enemyType];
        enemy == Some(Enemy(enemyType, t.hp, t.damage, t.xp, t.gold, t.hp))
      ensures reply == Acted(Unmatched)
    {
      EnterCombat(enemyType);
      var announcement := Announcement(enemyType, enemy.value.currentHp, hp);
      AnnouncementUnmatched(Snapshot(), enemyType, enemy.value.currentHp, hp, Rolls(0, 0, 0, 0, 0));
      var o := ProcessCombatAction(announcement, Rolls(0, 0, 0, 0, 0));
      reply := Acted(o);
    }

    /**
     * `start_combat` as intended: the announcement is narrated like any other
     * message and the narration is the reply.
     */
    method StartCombat(enemyType: string, narration: string) returns (reply: Reply)
      requires Valid() && enemyType in enemies
      modifies this
      ensures Valid() && inCombat && enemies == old(enemies)
      ensures var t := enemies[enemyType];
        enemy == Some(Enemy(enemyType, t.hp, t.damage, t.xp, t.gold, t.hp))
      ensures old(Snapshot()).hero == Snapshot().hero
      ensures history == KeepLast(old(history) + [Turn(Announcement(enemyType, enemies[enemyType].hp, hp), narration)], 3)
      ensures reply == Said(narration)
    {
      EnterCombat(enemyType);
      var announcement := Announcement(enemyType, enemy.value.currentHp, hp);
      AddToHistory(announcement, narration);
      reply := Said(narration);
    }

    /**
     * `send_message`: "fight" in any letter case starts combat with the chosen
     * enemy; during combat every message is a combat action; otherwise the
     * model's narration is recorded and returned.
     */
    method SendMessage(message: string, narration: string, enemyChoice: string, r: Rolls) returns (reply: Reply)
      requires Valid() && enemyChoice in enemies
      modifies this
      ensures Valid() && enemies == old(enemies)
      ensures Text.Lower(message) == "fight" ==>
        inCombat && enemy.Some? && enemy.value.name == enemyChoice && reply == Said(narration)
      ensures Text.Lower(message) != "fight" && old(inCombat) ==>
        reply.Acted? && (Snapshot(), reply.outcome) == CombatStep(old(Snapshot()), Text.Lower(message), r) &&
        history == old(history)
      ensures Text.Lower(message) != "fight" && !old(inCombat) ==>
        Snapshot() == old(Snapshot()) && reply == Said(narration) &&
        history == KeepLast(old(history) + [Turn(message, narration)], 3)
    {
      if Text.Lower(message) == "fight" {
        reply := StartCombat(enemyChoice, narration);
      } else if inCombat {
        var o := ProcessCombatAction(message, r);
        reply := Acted(o);
      } else {
        AddToHistory(message, narration);
        reply := Said(narration);
      }
    }

    /**
     * `choose_race` with the typed line as a parameter: the stripped line
     * names the race; an unknown one is refused and the caller asks again.
     */
    method ChooseRace(input: string, damageRoll: int) returns (accepted: bool)
      requires Valid()
      requires Text.Strip(input) in CharacterConfig.RaceConfigs ==>
        InRange(damageRoll, CharacterConfig.RaceConfigs[Text.Strip(input)].damageRoll)
      modifies this
      ensures Valid()
      ensures accepted <==> Text.Strip(input) in CharacterConfig.RaceConfigs
      ensures accepted ==> race == Text.Strip(input) && damage == damageRoll
      ensures !accepted ==> Snapshot() == old(Snapshot()) && race == old(race)
    {
      accepted := ApplyRace(Text.Strip(input), damageRoll);
    }

    /**
     * The if-chain of `choose_race` on the hero's numbers: the race's base hp
     * and gold, level 1, the rolled damage and its first-level slots, and
     * whether the name was one of the races.
     */
    static method RaceBranches(choice: string, damageRoll: int, hp: int, level: int, gold: int, magic1: int, damage: int)
      returns (accepted: bool, h: int, l: int, g: int, m1: int, d: int)
      ensures accepted <==> choice in CharacterConfig.RaceConfigs
      ensures accepted ==>
        var cfg := CharacterConfig.RaceConfigs[choice];
        h == cfg.baseHp && l == 1 && g == cfg.baseGold && d == damageRoll &&
        m1 == (if cfg.magic1 > 0 then cfg.magic1 else magic1)
      ensures !accepted ==> h == hp && l == level && g == gold && m1 == magic1 && d == damage
    {
      h, l, g, m1, d := hp, level, gold, magic1, damage;
      CharacterConfig.RaceRows(choice);
      accepted := true;
      if choice == "Human" {
        h, l, g, d := 15, 1, 5, damageRoll;
      } else if choice == "Elf" {
        h, l, g, d := 10, 1, 5, damageRoll;
      } else if choice == "Dwarf" {
        h, l, g, d := 18, 1, 8, damageRoll;
      } else if choice == "Orc" {
        h, l, g, d := 8, 1, 3, damageRoll;
      } else if choice == "Halfling" {
        h, l, g, d := 12, 1, 10, damageRoll;
      } else if choice == "Dragonborn" {
        h, l, g, d := 14, 1, 6, damageRoll;
      } else if choice == "Tiefling" {
        h, l, g, m1, d := 12, 1, 5, 1, damageRoll;
      } else if choice == "Gnome" {
        h, l, g, m1, d := 10, 1, 7, 2, damageRoll;
      } else {
        accepted := false;
      }
    }

    /**
     * The race branches of `choose_race`: a known race sets hp, level 1, gold
     * and the rolled damage, and Tiefling and Gnome also set their first-level
     * slots; other fields keep their values.
     */
    method ApplyRace(choice: string, damageRoll: int) returns (accepted: bool)
      requires Valid()
      requires choice in CharacterConfig.RaceConfigs ==>
        InRange(damageRoll, CharacterConfig.RaceConfigs[choice].damageRoll)
      modifies this
      ensures Valid()
      ensures accepted <==> choice in CharacterConfig.RaceConfigs
      ensures accepted ==>
        race == choice &&
        var cfg := CharacterConfig.RaceConfigs[race];
        hp == cfg.baseHp && level == 1 && gold == cfg.baseGold && damage == damageRoll &&
        magic1 == (if cfg.magic1 > 0 then cfg.magic1 else old(magic1)) && magic2 == old(magic2)
      ensures !accepted ==> Snapshot() == old(Snapshot()) && race == old(race)
      ensures inCombat == old(inCombat) && enemy == old(enemy) && history == old(history)
      ensures className == old(className) && enemies == old(enemies)
    {
      var h, l, g, m1, d;
      accepted, h, l, g, m1, d := RaceBranches(choice, damageRoll, hp, level, gold, magic1, damage);
      if accepted {
        hp, level, gold, magic1, damage, race := h, l, g, m1, d, choice;
      }
    }

    /**
     * `choose_class` with the typed line as a parameter: the stripped line
     * names the class; an unknown one is refused and the caller asks again.
     */
    method ChooseClass(input: string) returns (accepted: bool)
      requires Valid()
      modifies this
      ensures Valid()
      ensures accepted <==> Text.Strip(input) in CharacterConfig.ClassConfigs
      ensures accepted ==> className == Text.Strip(input)
      ensures !accepted ==> Snapshot() == old(Snapshot()) && className == old(className)
    {
      accepted := ApplyClass(Text.Strip(input));
    }

    /**
     * The if-chain of `choose_class` on the hero's numbers: the new hp, gold,
     * damage and slots, and whether the name was one of the classes.
     */
    static method ClassBranches(choice: string, hp: int, gold: int, damage: int, magic1: int, magic2: int)
      returns (accepted: bool, h: int, g: int, d: int, m1: int, m2: int)
      ensures accepted <==> choice in CharacterConfig.ClassConfigs
      ensures accepted ==>
        var cfg := CharacterConfig.ClassConfigs[choice];
        h == hp + cfg.hpBonus && g == gold + cfg.goldBonus && d == damage + cfg.damageBonus &&
        m1 == (if choice == "Warrior" then 0 else magic1 + cfg.magic1Bonus) &&
        m2 == (if cfg.magic2Bonus > 0 then 1 else magic2)
      ensures !accepted ==> h == hp && g == gold && d == damage && m1 == magic1 && m2 == magic2
    {
      CharacterConfig.ClassRows(choice);
      accepted := true;
      h, g, d, m1, m2 := hp, gold, damage, magic1, magic2;
      if choice == "Warrior" {
        h, g, m1 := h + 5, g + 2, 0;
      } else if choice == "Mage" {
        h, g, m1, m2 := h + 2, g + 1, m1 + 3, 1;
      } else if choice == "Ranger" {
        h, g, m1 := h + 3, g + 3, m1 + 1;
      } else if choice == "Rogue" {
        h, g, d := h + 2, g + 5, d + 2;
      } else if choice == "Paladin" {
        h, g, m1 := h + 4, g + 2, m1 + 1;
      } else if choice == "Warlock" {
        h, g, m1, m2 := h + 3, g + 1, m1 + 2, 1;
      } else if choice == "Bard" {
        h, g, m1 := h + 3, g + 4, m1 + 2;
      } else if choice == "Cleric" {
        h, g, m1, m2 := h + 4, g + 1, m1 + 2, 1;
      } else if choice == "Monk" {
        h, g, d := h + 3, g + 1, d + 1;
      } else if choice == "Druid" {
        h, g, m1, m2 := h + 3, g + 2, m1 + 2, 1;
      } else {
        accepted := false;
      }
    }

    /**
     * The class branches of `choose_class`: the class adds its hp, gold and
     * damage bonuses and its slots, except that Warrior sets the first-level
     * slots to 0 and a second-level slot is set to 1, not incremented.
     */
    method ApplyClass(choice: string) returns (accepted: bool)
      requires Valid()
      modifies this
      ensures Valid()
      ensures accepted <==> choice in CharacterConfig.ClassConfigs
      ensures accepted ==>
        className == choice &&
        var cfg := CharacterConfig.ClassConfigs[className];
        hp == old(hp) + cfg.hpBonus && gold == old(gold) + cfg.goldBonus &&
        damage == old(damage) + cfg.damageBonus && level == old(level) &&
        magic1 == (if className == "Warrior" then 0 else old(magic1) + cfg.magic1Bonus) &&
        magic2 == (if cfg.magic2Bonus > 0 then 1 else old(magic2))
      ensures !accepted ==> Snapshot() == old(Snapshot()) && className == old(className)
      ensures inCombat == old(inCombat) && enemy == old(enemy) && history == old(history)
      ensures race == old(race) && enemies == old(enemies)
    {
      var h, g, d, m1, m2;
      accepted, h, g, d, m1, m2 := ClassBranches(choice, hp, gold, damage, magic1, magic2);
      if accepted {
        hp, gold, damage, magic1, magic2, className := h, g, d, m1, m2, choice;
      }
    }
  }
}
