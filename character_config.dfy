/**
 * The static character and enemy tables and their translation-aware lookups
 * (character_config.py). The tables are constants; the lookups are functions.
 */
module CharacterConfig {
  import opened Common
  import Text

  /** A closed integer range (min, max), as the tables write damage and gold. */
  datatype Range = Range(lo: int, hi: int)

  datatype RaceConfig = RaceConfig(baseHp: int, baseGold: int, damageRoll: Range, magic1: int, magic2: int)

  datatype ClassConfig = ClassConfig(hpBonus: int, goldBonus: int, damageBonus: int, magic1Bonus: int, magic2Bonus: int)

  datatype RaceStats = RaceStats(hp: int, damage: string, gold: int)

  datatype ClassBonus = ClassBonus(hpBonus: int, goldBonus: int, magic: int)

  datatype EnemyTemplate = EnemyTemplate(hp: int, damage: Range, xp: int, gold: Range)

  const RaceConfigs: map<string, RaceConfig> := map[
    "Human" := RaceConfig(15, 5, Range(2, 7), 0, 0),
    "Elf" := RaceConfig(10, 5, Range(1, 12), 0, 0),
    "Dwarf" := RaceConfig(18, 8, Range(1, 8), 0, 0),
    "Orc" := RaceConfig(8, 3, Range(3, 12), 0, 0),
    "Halfling" := RaceConfig(12, 10, Range(1, 6), 0, 0),
    "Dragonborn" := RaceConfig(14, 6, Range(2, 8), 0, 0),
    "Tiefling" := RaceConfig(12, 5, Range(1, 10), 1, 0),
    "Gnome" := RaceConfig(10, 7, Range(1, 6), 2, 0)
  ]

  const ClassConfigs: map<string, ClassConfig> := map[
    "Warrior" := ClassConfig(5, 2, 0, 0, 0),
    "Mage" := ClassConfig(2, 1, 0, 3, 1),
    "Ranger" := ClassConfig(3, 3, 0, 1, 0),
    "Rogue" := ClassConfig(2, 5, 2, 0, 0),
    "Paladin" := ClassConfig(4, 2, 0, 1, 0),
    "Warlock" := ClassConfig(3, 1, 0, 2, 1),
    "Bard" := ClassConfig(3, 4, 0, 2, 0),
    "Cleric" := ClassConfig(4, 1, 0, 2, 1),
    "Monk" := ClassConfig(3, 1, 1, 0, 0),
    "Druid" := ClassConfig(3, 2, 0, 2, 1)
  ]

  /** The rows of RaceConfigs, one by one: the names it holds and the configuration of each. */
  lemma RaceRows(name: string)
    ensures name == "Human" ==> name in RaceConfigs && RaceConfigs[name] == RaceConfig(15, 5, Range(2, 7), 0, 0)
    ensures name == "Elf" ==> name in RaceConfigs && RaceConfigs[name] == RaceConfig(10, 5, Range(1, 12), 0, 0)
    ensures name == "Dwarf" ==> name in RaceConfigs && RaceConfigs[name] == RaceConfig(18, 8, Range(1, 8), 0, 0)
    ensures name == "Orc" ==> name in RaceConfigs && RaceConfigs[name] == RaceConfig(8, 3, Range(3, 12), 0, 0)
    ensures name == "Halfling" ==> name in RaceConfigs && RaceConfigs[name] == RaceConfig(12, 10, Range(1, 6), 0, 0)
    ensures name == "Dragonborn" ==> name in RaceConfigs && RaceConfigs[name] == RaceConfig(14, 6, Range(2, 8), 0, 0)
    ensures name == "Tiefling" ==> name in RaceConfigs && RaceConfigs[name] == RaceConfig(12, 5, Range(1, 10), 1, 0)
    ensures name == "Gnome" ==> name in RaceConfigs && RaceConfigs[name] == RaceConfig(10, 7, Range(1, 6), 2, 0)
    ensures name in RaceConfigs ==>
            name == "Human" ||
            name == "Elf" ||
            name == "Dwarf" ||
            name == "Orc" ||
            name == "Halfling" ||
            name == "Dragonborn" ||
            name == "Tiefling" ||
            name == "Gnome"
  {
  }

  /** The rows of ClassConfigs, one by one: the names it holds and the bonuses of each. */
  lemma ClassRows(name: string)
    ensures name == "Warrior" ==> name in ClassConfigs && ClassConfigs[name] == ClassConfig(5, 2, 0, 0, 0)
    ensures name == "Mage" ==> name in ClassConfigs && ClassConfigs[name] == ClassConfig(2, 1, 0, 3, 1)
    ensures name == "Ranger" ==> name in ClassConfigs && ClassConfigs[name] == ClassConfig(3, 3, 0, 1, 0)
    ensures name == "Rogue" ==> name in ClassConfigs && ClassConfigs[name] == ClassConfig(2, 5, 2, 0, 0)
    ensures name == "Paladin" ==> name in ClassConfigs && ClassConfigs[name] == ClassConfig(4, 2, 0, 1, 0)
    ensures name == "Warlock" ==> name in ClassConfigs && ClassConfigs[name] == ClassConfig(3, 1, 0, 2, 1)
    ensures name == "Bard" ==> name in ClassConfigs && ClassConfigs[name] == ClassConfig(3, 4, 0, 2, 0)
    ensures name == "Cleric" ==> name in ClassConfigs && ClassConfigs[name] == ClassConfig(4, 1, 0, 2, 1)
    ensures name == "Monk" ==> name in ClassConfigs && ClassConfigs[name] == ClassConfig(3, 1, 1, 0, 0)
    ensures name == "Druid" ==> name in ClassConfigs && ClassConfigs[name] == ClassConfig(3, 2, 0, 2, 1)
    ensures name in ClassConfigs ==>
            name == "Warrior" ||
            name == "Mage" ||
            name == "Ranger" ||
            name == "Rogue" ||
            name == "Paladin" ||
            name == "Warlock" ||
            name == "Bard" ||
            name == "Cleric" ||
            name == "Monk" ||
            name == "Druid"
  {
  }

  /** The first ENEMIES table of the file; the second assignment replaces it. */
  const ShadowedEnemies: map<string, EnemyTemplate> := map[
    "Goblin" := EnemyTemplate(7, Range(1, 6), 50, Range(1, 6)),
    "Skeleton" := EnemyTemplate(13, Range(1, 8), 100, Range(2, 8)),
    "Orc" := EnemyTemplate(15, Range(1, 12), 150, Range(2, 10)),
    "Wolf" := EnemyTemplate(11, Range(2, 4), 75, Range(0, 2)),
    "Bandit" := EnemyTemplate(11, Range(1, 8), 100, Range(4, 10)),
    "Zombie" := EnemyTemplate(22, Range(1, 6), 125, Range(0, 4)),
    "Dark Cultist" := EnemyTemplate(9, Range(1, 10), 150, Range(3, 8)),
    "Giant Spider" := EnemyTemplate(10, Range(1, 8), 100, Range(0, 3))
  ]

  /** The ENEMIES table in effect once the module has loaded. */
  const Enemies: map<string, EnemyTemplate> := map[
    "Goblin" := EnemyTemplate(10, Range(1, 6), 50, Range(1, 4)),
    "Orc" := EnemyTemplate(15, Range(2, 8), 100, Range(2, 6)),
    "Troll" := EnemyTemplate(30, Range(3, 10), 200, Range(4, 10)),
    "Dragon" := EnemyTemplate(50, Range(4, 12), 500, Range(10, 20))
  ]

  /** (English name, localized name) pairs in the tables' insertion order. */
  type Translation = seq<(string, string)>

  const RaceTranslationsEn: Translation := [
    ("Human", "Human"), ("Elf", "Elf"), ("Dwarf", "Dwarf"), ("Orc", "Orc"),
    ("Halfling", "Halfling"), ("Dragonborn", "Dragonborn"), ("Tiefling", "Tiefling"), ("Gnome", "Gnome")
  ]

  const RaceTranslationsRu: Translation := [
    ("Human", "Человек"), ("Elf", "Эльф"), ("Dwarf", "Гном"), ("Orc", "Орк"),
    ("Halfling", "Полурослик"), ("Dragonborn", "Драконорожденный"), ("Tiefling", "Тифлинг"), ("Gnome", "Гном")
  ]

  const ClassTranslationsEn: Translation := [
    ("Warrior", "Warrior"), ("Mage", "Mage"), ("Ranger", "Ranger"), ("Rogue", "Rogue"), ("Paladin", "Paladin"),
    ("Warlock", "Warlock"), ("Bard", "Bard"), ("Cleric", "Cleric"), ("Monk", "Monk"), ("Druid", "Druid")
  ]

  const ClassTranslationsRu: Translation := [
    ("Warrior", "Воин"), ("Mage", "Маг"), ("Ranger", "Следопыт"), ("Rogue", "Плут"), ("Paladin", "Паладин"),
    ("Warlock", "Колдун"), ("Bard", "Бард"), ("Cleric", "Жрец"), ("Monk", "Монах"), ("Druid", "Друид")
  ]

  const RaceStatsTable: map<string, RaceStats> := map[
    "Human" := RaceStats(15, "2-7", 5),
    "Elf" := RaceStats(10, "1-12", 5),
    "Dwarf" := RaceStats(18, "1-8", 8),
    "Orc" := RaceStats(8, "3-12", 3),
    "Halfling" := RaceStats(12, "1-6", 10),
    "Dragonborn" := RaceStats(14, "2-8", 6),
    "Tiefling" := RaceStats(12, "1-10", 5),
    "Gnome" := RaceStats(10, "1-6", 7)
  ]

  const ClassBonuses: map<string, ClassBonus> := map[
    "Warrior" := ClassBonus(5, 2, 0),
    "Mage" := ClassBonus(2, 1, 3),
    "Ranger" := ClassBonus(3, 3, 1),
    "Rogue" := ClassBonus(2, 5, 0),
    "Paladin" := ClassBonus(4, 2, 1),
    "Warlock" := ClassBonus(3, 1, 2),
    "Bard" := ClassBonus(3, 4, 2),
    "Cleric" := ClassBonus(4, 1, 2),
    "Monk" := ClassBonus(3, 1, 0),
    "Druid" := ClassBonus(3, 2, 2)
  ]

  /** The English name of the first entry whose localized name is `local`. */
  function FirstMatch(t: Translation, local: string): (r: Option<string>)
    ensures r.Some? <==> exists i :: 0 <= i < |t| && t[i].1 == local
    ensures r.Some? ==> exists i :: 0 <= i < |t| && t[i] == (r.value, local) &&
                                    forall j :: 0 <= j < i ==> t[j].1 != local
  {
    if t == [] then None
    else if t[0].1 == local then Some(t[0].0)
    else
      var r := FirstMatch(t[1..], local);
      assert r.Some? ==> exists i :: 1 <= i < |t| && t[i] == (r.value, local) &&
                                     forall j :: 0 <= j < i ==> t[j].1 != local by {
        if r.Some? {
          var i :| 0 <= i < |t| - 1 && t[1..][i] == (r.value, local) &&
                   forall j :: 0 <= j < i ==> t[1..][j].1 != local;
          assert t[i + 1] == (r.value, local);
          assert forall j :: 1 <= j < i + 1 ==> t[j].1 != local by {
            forall j | 1 <= j < i + 1 ensures t[j].1 != local {
              assert t[j] == t[1..][j - 1];
            }
          }
        }
      }
      r
  }

  /**
   * The name after the translation loop: each language table in turn renames
   * the current name to the English name of its first matching entry.
   */
  function ToEnglish(langs: seq<Translation>, name: string): string
  {
    if langs == [] then name
    else
      var next := match FirstMatch(langs[0], name) case Some(eng) => eng case None => name;
      ToEnglish(langs[1..], next)
  }

  function GetRaceStats(raceName: string): RaceStats
  {
    var name := ToEnglish([RaceTranslationsEn, RaceTranslationsRu], raceName);
    if name in RaceStatsTable then RaceStatsTable[name] else RaceStatsTable["Human"]
  }

  function GetClassBonuses(className: string): ClassBonus
  {
    var name := ToEnglish([ClassTranslationsEn, ClassTranslationsRu], className);
    if name in ClassBonuses then ClassBonuses[name] else ClassBonuses["Warrior"]
  }

  /** A race name that translates to a known English name finds that name's stats. */
  lemma GetRaceStatsVia(raceName: string, eng: string)
    requires ToEnglish([RaceTranslationsEn, RaceTranslationsRu], raceName) == eng
    requires eng in RaceStatsTable
    ensures GetRaceStats(raceName) == RaceStatsTable[eng]
  {
  }

  /** A class name that translates to a known English name finds that name's bonuses. */
  lemma GetClassBonusesVia(className: string, eng: string)
    requires ToEnglish([ClassTranslationsEn, ClassTranslationsRu], className) == eng
    requires eng in ClassBonuses
    ensures GetClassBonuses(className) == ClassBonuses[eng]
  {
  }

  /** Every English name of the race tables has stats. */
  lemma RaceNamesKnown(i: nat)
    requires i < |RaceTranslationsRu|
    ensures RaceTranslationsRu[i].0 in RaceStatsTable && RaceTranslationsEn[i].0 in RaceStatsTable
  {
  }

  /** Every English name of the class tables has bonuses. */
  lemma ClassNamesKnown(i: nat)
    requires i < |ClassTranslationsRu|
    ensures ClassTranslationsRu[i].0 in ClassBonuses && ClassTranslationsEn[i].0 in ClassBonuses
  {
  }

  /** A copy of the template; an unknown type gives the Goblin. */
  function GetEnemy(enemyType: string): EnemyTemplate
  {
    if enemyType in Enemies then Enemies[enemyType] else Enemies["Goblin"]
  }

  /** Names that neither language table knows leave the translation loop unchanged. */
  lemma {:induction false} ToEnglishUnknown(langs: seq<Translation>, name: string)
    requires forall k, i :: 0 <= k < |langs| && 0 <= i < |langs[k]| ==> langs[k][i].1 != name
    ensures ToEnglish(langs, name) == name
  {
    if langs != [] {
      ToEnglishUnknown(langs[1..], name);
    }
  }

  /** An unrecognised race name falls back to the Human stats. */
  lemma GetRaceStatsUnknown(raceName: string)
    requires raceName !in RaceStatsTable
    requires forall i :: 0 <= i < |RaceTranslationsRu| ==> RaceTranslationsRu[i].1 != raceName
    ensures GetRaceStats(raceName) == RaceStats(15, "2-7", 5)
  {
    var langs := [RaceTranslationsEn, RaceTranslationsRu];
    assert forall i :: 0 <= i < |RaceTranslationsEn| ==> RaceTranslationsEn[i].1 in RaceStatsTable;
    ToEnglishUnknown(langs, raceName);
  }

  /** An unrecognised class name falls back to the Warrior bonuses. */
  lemma GetClassBonusesUnknown(className: string)
    requires className !in ClassBonuses
    requires forall i :: 0 <= i < |ClassTranslationsRu| ==> ClassTranslationsRu[i].1 != className
    ensures GetClassBonuses(className) == ClassBonus(5, 2, 0)
  {
    var langs := [ClassTranslationsEn, ClassTranslationsRu];
    assert forall i :: 0 <= i < |ClassTranslationsEn| ==> ClassTranslationsEn[i].1 in ClassBonuses;
    ToEnglishUnknown(langs, className);
  }

  /** The translation loop over two tables: the first renames, then the second. */
  lemma ToEnglishTwo(first: Translation, second: Translation, name: string, mid: string, out: string)
    requires mid == (match FirstMatch(first, name) case Some(eng) => eng case None => name)
    requires out == (match FirstMatch(second, mid) case Some(eng) => eng case None => mid)
    ensures ToEnglish([first, second], name) == out
  {
    assert [first, second][0] == first && [first, second][1..] == [second];
    assert [second][0] == second && [second][1..] == [];
    assert ToEnglish([second], mid) == ToEnglish([], out) == out;
  }

  /** In a table whose entries map a name to itself, a match renames nothing. */
  lemma FirstMatchIdentity(t: Translation, name: string)
    requires forall i :: 0 <= i < |t| ==> t[i].0 == t[i].1
    ensures (match FirstMatch(t, name) case Some(eng) => eng case None => name) == name
  {
  }

  /** The first entry carrying a localized name decides its English name. */
  lemma FirstMatchAt(t: Translation, local: string, k: nat)
    requires k < |t| && t[k].1 == local
    requires forall j :: 0 <= j < k ==> t[j].1 != local
    ensures FirstMatch(t, local) == Some(t[k].0)
  {
    var r := FirstMatch(t, local);
    var i :| 0 <= i < |t| && t[i] == (r.value, local) && forall j :: 0 <= j < i ==> t[j].1 != local;
    assert i == k;
  }

  /** Russian and English names never coincide: they start in different alphabets. */
  lemma RaceScriptsDiffer(i: nat, j: nat)
    requires i < |RaceTranslationsRu| && j < |RaceTranslationsEn|
    ensures RaceTranslationsRu[i].1 != RaceTranslationsEn[j].1
  {
    assert RaceTranslationsRu[i].1[0] != RaceTranslationsEn[j].1[0];
  }

  /** The Russian race names are distinct, except Dwarf's and Gnome's. */
  lemma RaceRuDistinct(i: nat, j: nat)
    requires j < i < |RaceTranslationsRu| && !(j == 2 && i == 7)
    ensures RaceTranslationsRu[i].1 != RaceTranslationsRu[j].1
  {
    assert RaceTranslationsRu[i].1[0] != RaceTranslationsRu[j].1[0];
  }

  lemma ClassScriptsDiffer(i: nat, j: nat)
    requires i < |ClassTranslationsRu| && j < |ClassTranslationsEn|
    ensures ClassTranslationsRu[i].1 != ClassTranslationsEn[j].1
  {
    assert ClassTranslationsRu[i].1[0] != ClassTranslationsEn[j].1[0];
  }

  /** The Russian class names are pairwise distinct. */
  lemma ClassRuDistinct(i: nat, j: nat)
    requires j < i < |ClassTranslationsRu|
    ensures ClassTranslationsRu[i].1 != ClassTranslationsRu[j].1
  {
    var a, b := ClassTranslationsRu[i].1, ClassTranslationsRu[j].1;
    assert |a| != |b| || a[0] != b[0];
  }

  /** Each English race name finds its own stats. */
  lemma GetRaceStatsEnglish(j: nat)
    requires j < |RaceTranslationsEn|
    ensures RaceTranslationsEn[j].0 in RaceStatsTable && GetRaceStats(RaceTranslationsEn[j].1) == RaceStatsTable[RaceTranslationsEn[j].0]
  {
    var name := RaceTranslationsEn[j].1;
    FirstMatchIdentity(RaceTranslationsEn, name);
    forall i | 0 <= i < |RaceTranslationsRu| ensures RaceTranslationsRu[i].1 != name {
      RaceScriptsDiffer(i, j);
    }
    ToEnglishTwo(RaceTranslationsEn, RaceTranslationsRu, name, name, name);
    RaceNamesKnown(j);
    assert RaceTranslationsEn[j].0 == name;
    GetRaceStatsVia(name, name);
  }

  /** Each Russian race name but the shared 'Гном' finds the stats of its English name. */
  lemma GetRaceStatsRussian(i: nat)
    requires i < |RaceTranslationsRu| && i != 2 && i != 7
    ensures RaceTranslationsRu[i].0 in RaceStatsTable && GetRaceStats(RaceTranslationsRu[i].1) == RaceStatsTable[RaceTranslationsRu[i].0]
  {
    var local := RaceTranslationsRu[i].1;
    forall j | 0 <= j < |RaceTranslationsEn| ensures RaceTranslationsEn[j].1 != local {
      RaceScriptsDiffer(i, j);
    }
    forall j | 0 <= j < i ensures RaceTranslationsRu[j].1 != local {
      RaceRuDistinct(i, j);
    }
    FirstMatchAt(RaceTranslationsRu, local, i);
    ToEnglishTwo(RaceTranslationsEn, RaceTranslationsRu, local, local, RaceTranslationsRu[i].0);
    RaceNamesKnown(i);
    GetRaceStatsVia(local, RaceTranslationsRu[i].0);
  }

  /** Dwarf and Gnome share one Russian name; the first match, Dwarf, wins. */
  lemma GnomeTranslatesToDwarf()
    ensures GetRaceStats(RaceTranslationsRu[7].1) == RaceStatsTable["Dwarf"]
    ensures GetRaceStats(RaceTranslationsRu[2].1) == RaceStatsTable["Dwarf"]
    ensures GetRaceStats(RaceTranslationsRu[7].1) != RaceStatsTable["Gnome"]
  {
    var local := RaceTranslationsRu[2].1;
    assert RaceTranslationsRu[7].1 == local;
    forall j | 0 <= j < |RaceTranslationsEn| ensures RaceTranslationsEn[j].1 != local {
      RaceScriptsDiffer(2, j);
    }
    RaceRuDistinct(2, 0);
    RaceRuDistinct(2, 1);
    FirstMatchAt(RaceTranslationsRu, local, 2);
    ToEnglishTwo(RaceTranslationsEn, RaceTranslationsRu, local, local, "Dwarf");
  }

  /** Each English class name finds its own bonuses. */
  lemma GetClassBonusesEnglish(j: nat)
    requires j < |ClassTranslationsEn|
    ensures ClassTranslationsEn[j].0 in ClassBonuses && GetClassBonuses(ClassTranslationsEn[j].1) == ClassBonuses[ClassTranslationsEn[j].0]
  {
    var name := ClassTranslationsEn[j].1;
    FirstMatchIdentity(ClassTranslationsEn, name);
    forall i | 0 <= i < |ClassTranslationsRu| ensures ClassTranslationsRu[i].1 != name {
      ClassScriptsDiffer(i, j);
    }
    ToEnglishTwo(ClassTranslationsEn, ClassTranslationsRu, name, name, name);
    ClassNamesKnown(j);
    assert ClassTranslationsEn[j].0 == name;
    GetClassBonusesVia(name, name);
  }

  /** Each Russian class name finds the bonuses of its English name. */
  lemma GetClassBonusesRussian(i: nat)
    requires i < |ClassTranslationsRu|
    ensures ClassTranslationsRu[i].0 in ClassBonuses && GetClassBonuses(ClassTranslationsRu[i].1) == ClassBonuses[ClassTranslationsRu[i].0]
  {
    var local := ClassTranslationsRu[i].1;
    forall j | 0 <= j < |ClassTranslationsEn| ensures ClassTranslationsEn[j].1 != local {
      ClassScriptsDiffer(i, j);
    }
    forall j | 0 <= j < i ensures ClassTranslationsRu[j].1 != local {
      ClassRuDistinct(i, j);
    }
    FirstMatchAt(ClassTranslationsRu, local, i);
    ToEnglishTwo(ClassTranslationsEn, ClassTranslationsRu, local, local, ClassTranslationsRu[i].0);
    ClassNamesKnown(i);
    GetClassBonusesVia(local, ClassTranslationsRu[i].0);
  }

  /** Only the second ENEMIES table is read: its entries, else the Goblin with 10 hp. */
  lemma GetEnemyFallback(enemyType: string)
    ensures enemyType in Enemies ==> GetEnemy(enemyType) == Enemies[enemyType]
    ensures enemyType !in Enemies ==> GetEnemy(enemyType).hp == 10
    ensures "Skeleton" in ShadowedEnemies && GetEnemy("Skeleton") == Enemies["Goblin"]
  {
  }

  /** RACE_STATS repeats RACE_CONFIGS: same hp and gold, damage written as "min-max". */
  lemma RaceTablesAgree()
    ensures RaceStatsTable.Keys == RaceConfigs.Keys
    ensures forall r :: r in RaceConfigs ==>
              RaceStatsTable[r].hp == RaceConfigs[r].baseHp &&
              RaceStatsTable[r].gold == RaceConfigs[r].baseGold
    ensures forall r :: r in RaceConfigs && RaceConfigs[r].damageRoll.lo >= 0 ==>
              RaceStatsTable[r].damage ==
                Text.Decimal(RaceConfigs[r].damageRoll.lo) + "-" + Text.Decimal(RaceConfigs[r].damageRoll.hi)
  {
  }

  /** CLASS_BONUSES repeats CLASS_CONFIGS: hp, gold and first-level slot bonus. */
  lemma ClassTablesAgree()
    ensures ClassBonuses.Keys == ClassConfigs.Keys
    ensures forall c :: c in ClassConfigs ==>
              ClassBonuses[c].hpBonus == ClassConfigs[c].hpBonus &&
              ClassBonuses[c].goldBonus == ClassConfigs[c].goldBonus &&
              ClassBonuses[c].magic == ClassConfigs[c].magic1Bonus
  {
  }

  /** Every race's damage range starts at 1 or more and no slot count is negative. */
  lemma RaceConfigsWellFormed()
    ensures forall r :: r in RaceConfigs ==>
              1 <= RaceConfigs[r].damageRoll.lo <= RaceConfigs[r].damageRoll.hi &&
              RaceConfigs[r].magic1 >= 0 && RaceConfigs[r].magic2 >= 0
  {
  }

  /** No class bonus to damage or slots is negative. */
  lemma ClassConfigsWellFormed()
    ensures forall c :: c in ClassConfigs ==>
              ClassConfigs[c].magic1Bonus >= 0 && ClassConfigs[c].magic2Bonus >= 0 && ClassConfigs[c].damageBonus >= 0
  {
  }

  /** Both ENEMIES tables write every damage and gold range low end first. */
  lemma EnemiesWellFormed()
    ensures forall e :: e in Enemies ==>
              Enemies[e].damage.lo <= Enemies[e].damage.hi && Enemies[e].gold.lo <= Enemies[e].gold.hi
    ensures forall e :: e in ShadowedEnemies ==>
              ShadowedEnemies[e].damage.lo <= ShadowedEnemies[e].damage.hi &&
              ShadowedEnemies[e].gold.lo <= ShadowedEnemies[e].gold.hi
  {
  }
}
