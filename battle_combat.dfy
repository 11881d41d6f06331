/**
 * The combat script of the second battle screen, battle_combat.js, together
 * with the handlers of battle_hexgrid.js that share its page globals: the
 * local dice roller, damage and healing clamped to the health range, the
 * mana gate of an attack, and the local enemy AI.
 */
module BattleCombat {
  import opened Common
  import Text
  import Geometry
  import HexGrid
  import BattleGrid
  import GameServer

  // ---------------------------------------------------------------------------
  // The local dice roller

  /** The three numbers `simulateDiceRoll` reads; each a JavaScript `parseInt` result. */
  datatype LocalNotation = LocalNotation(count: Text.JsNum, sides: Text.JsNum, modifier: Text.JsNum)

  /** Lower-cased with every whitespace character dropped. */
  function Squash(notation: string): string
  {
    Text.Remove(Text.Lower(notation), Text.JsWhitespace)
  }

  /** The fallback notation, 1d6+0. */
  const Fallback := LocalNotation(Text.Num(1), Text.Num(6), Text.Num(0))

  /**
   * The parse of `simulateDiceRoll`: the pieces around 'd'; anything but two
   * pieces keeps 1d6+0.
   */
  function ParseLocal(notation: string): (n: LocalNotation)
    ensures |Text.Split(Squash(notation), 'd')| != 2 ==> n == Fallback
  {
    LocalParts(Text.Split(Squash(notation), 'd'))
  }

  /** Two pieces: an empty count keeps 1, and the sides end at a '+' whose right-hand piece is the modifier. */
  function LocalParts(parts: seq<string>): (n: LocalNotation)
    ensures |parts| == 2 && parts[0] == "" ==> n.count == Text.Num(1)
    ensures |parts| == 2 && '+' !in parts[1] ==> n.modifier == Text.Num(0)
  {
    if |parts| != 2 then Fallback
    else
      var count := if parts[0] == "" then Text.Num(1) else Text.ParseInt(parts[0]);
      Text.CountPositive(parts[1], '+');
      if '+' in parts[1] then
        var modParts := Text.Split(parts[1], '+');
        LocalNotation(count, Text.ParseInt(modParts[0]), Text.ParseInt(modParts[1]))
      else
        LocalNotation(count, Text.ParseInt(parts[1]), Text.Num(0))
  }

  /** Digits, 'd' and '+' only: lower-casing and dropping whitespace change nothing. */
  predicate Plain(s: string)
  {
    forall i :: 0 <= i < |s| ==> Text.IsDigit(s[i]) || s[i] == 'd' || s[i] == '+'
  }

  lemma PlainSquash(s: string)
    requires Plain(s)
    ensures Squash(s) == s
  {
    Text.LowerFixed(s);
    Text.RemoveFixed(s, Text.JsWhitespace);
  }

  lemma PlainAppend(a: string, b: string)
    requires Plain(a) && Plain(b)
    ensures Plain(a + b)
  {
    forall i | 0 <= i < |a + b| ensures Text.IsDigit((a + b)[i]) || (a + b)[i] == 'd' || (a + b)[i] == '+' {
      if i < |a| { assert (a + b)[i] == a[i]; } else { assert (a + b)[i] == b[i - |a|]; }
    }
  }

  lemma PlainDecimal(n: nat)
    ensures Plain(Text.Decimal(n))
  {
    var d := Text.Decimal(n);
    assert forall i :: 0 <= i < |d| ==> Text.IsDigit(d[i]);
  }

  /** A formatted notation is made of digits, 'd' and '+' only. */
  lemma FormatPlain(count: nat, sides: nat, modifier: nat)
    ensures Plain(GameServer.Format(count, sides, modifier))
  {
    var c, tail := Text.Decimal(count), GameServer.FormatTail(sides, modifier);
    GameServer.FormatClean(count, sides, modifier);
    PlainTail(sides, modifier);
    PlainDecimal(count);
    PlainAppend(c, "d");
    PlainAppend(c + "d", tail);
    assert c + "d" + tail == c + ['d'] + tail;
  }

  /** A plain notation with exactly one 'd' splits into the two sides of it. */
  lemma PlainSplit(f: string, c: string, tail: string)
    requires Plain(f) && f == c + ['d'] + tail && 'd' !in c && 'd' !in tail
    ensures Text.Split(Squash(f), 'd') == [c, tail]
  {
    PlainSquash(f);
    Text.SplitAppend(c, tail, 'd');
    Text.NoSepSplit(tail, 'd');
  }

  /** A formatted notation is plain and splits at its one 'd'. */
  lemma FormatPieces(count: nat, sides: nat, modifier: nat)
    ensures Text.Split(Squash(GameServer.Format(count, sides, modifier)), 'd') ==
            [Text.Decimal(count), GameServer.FormatTail(sides, modifier)]
  {
    FormatPlain(count, sides, modifier);
    GameServer.FormatClean(count, sides, modifier);
    GameServer.DecimalClean(count);
    GameServer.FormatTailShape(sides, modifier);
    PlainSplit(GameServer.Format(count, sides, modifier), Text.Decimal(count), GameServer.FormatTail(sides, modifier));
  }

  lemma PlainTail(sides: nat, modifier: nat)
    ensures Plain(GameServer.FormatTail(sides, modifier))
  {
    PlainDecimal(sides);
    if modifier != 0 {
      PlainDecimal(modifier);
      PlainAppend("+", Text.Decimal(modifier));
      PlainAppend(Text.Decimal(sides), "+" + Text.Decimal(modifier));
    }
  }

  /** The pieces of a formatted notation read back as its numbers. */
  lemma FormatParts(count: nat, sides: nat, modifier: nat)
    ensures LocalParts([Text.Decimal(count), GameServer.FormatTail(sides, modifier)]) ==
            LocalNotation(Text.Num(count), Text.Num(sides), Text.Num(modifier))
  {
    var c, tail := Text.Decimal(count), GameServer.FormatTail(sides, modifier);
    GameServer.FormatTailShape(sides, modifier);
    Text.ParseIntDecimal(count, "");
    Text.ParseIntDecimal(sides, "");
    Text.ParseIntDecimal(modifier, "");
    assert c + "" == c && Text.Decimal(sides) + "" == Text.Decimal(sides);
    assert Text.Decimal(modifier) + "" == Text.Decimal(modifier);
    Text.CountPositive(tail, '+');
    assert c != [];
  }

  /**
   * The browser's fallback roller reads every notation the server formats
   * exactly as the server's parser does: the same count, sides and modifier.
   */
  lemma LocalParseFormat(count: nat, sides: nat, modifier: nat)
    ensures ParseLocal(GameServer.Format(count, sides, modifier)) ==
            LocalNotation(Text.Num(count), Text.Num(sides), Text.Num(modifier))
  {
    FormatPieces(count, sides, modifier);
    FormatParts(count, sides, modifier);
  }

  /** How many dice the loop rolls: `for (i = 0; i < count; i++)`, none when the count is NaN. */
  function RollCount(n: LocalNotation): nat
  {
    if n.count.NaN? then 0 else Max(n.count.n, 0)
  }

  /**
   * `draws[i]` stands for `Math.floor(Math.random() * sides)`: in [0, sides)
   * for positive sides, in [sides, 0] otherwise.
   */
  predicate DrawsFit(n: LocalNotation, draws: seq<int>)
  {
    |draws| >= RollCount(n) &&
    (n.sides.Num? ==> forall i :: 0 <= i < RollCount(n) ==>
       if n.sides.n > 0 then 0 <= draws[i] < n.sides.n else n.sides.n <= draws[i] <= 0)
  }

  /** JavaScript addition on integers and NaN. */
  function JsAdd(a: Text.JsNum, b: Text.JsNum): (r: Text.JsNum)
    ensures r.NaN? <==> a.NaN? || b.NaN?
  {
    if a.NaN? || b.NaN? then Text.NaN else Text.Num(a.n + b.n)
  }

  /** What `simulateDiceRoll` returns. */
  datatype LocalRoll = LocalRoll(rolls: seq<Text.JsNum>, total: Text.JsNum, modifier: Text.JsNum)

  /** The value of each die, one more than its draw. */
  function DieValues(draws: seq<int>, k: nat): (r: seq<int>)
    requires k <= |draws|
    ensures |r| == k && forall i :: 0 <= i < k ==> r[i] == draws[i] + 1
  {
    if k == 0 then [] else DieValues(draws, k - 1) + [draws[k - 1] + 1]
  }

  /** The first loop of `simulateDiceRoll`: one die per count, NaN when the sides are NaN. */
  method RollDice(n: LocalNotation, draws: seq<int>) returns (rolls: seq<Text.JsNum>)
    requires DrawsFit(n, draws)
    ensures |rolls| == RollCount(n)
    ensures forall i :: 0 <= i < |rolls| ==> rolls[i] == (if n.sides.NaN? then Text.NaN else Text.Num(draws[i] + 1))
  {
    var k := RollCount(n);
    rolls := [];
    var i := 0;
    while i < k
      invariant 0 <= i <= k && |rolls| == i
      invariant forall j :: 0 <= j < i ==> rolls[j] == (if n.sides.NaN? then Text.NaN else Text.Num(draws[j] + 1))
    {
      var roll := if n.sides.NaN? then Text.NaN else Text.Num(draws[i] + 1);
      rolls := rolls + [roll];
      i := i + 1;
    }
  }

  /** The summing loop of `simulateDiceRoll`: the sum of the dice, NaN once a die is NaN. */
  method SumDice(n: LocalNotation, draws: seq<int>, rolls: seq<Text.JsNum>) returns (sum: Text.JsNum)
    requires |rolls| == RollCount(n) <= |draws|
    requires forall i :: 0 <= i < |rolls| ==> rolls[i] == (if n.sides.NaN? then Text.NaN else Text.Num(draws[i] + 1))
    ensures sum.NaN? <==> n.sides.NaN? && |rolls| > 0
    ensures sum.Num? ==> sum.n == Sum(DieValues(draws, |rolls|))
  {
    sum := Text.Num(0);
    var i := 0;
    while i < |rolls|
      invariant 0 <= i <= |rolls|
      invariant sum.NaN? <==> n.sides.NaN? && i > 0
      invariant sum.Num? ==> sum.n == Sum(DieValues(draws, i))
    {
      SumDiceStep(n, draws, sum, rolls[i], i);
      sum := JsAdd(sum, rolls[i]);
      i := i + 1;
    }
  }

  /** One turn of the summing loop keeps its two invariants. */
  lemma SumDiceStep(n: LocalNotation, draws: seq<int>, sum: Text.JsNum, roll: Text.JsNum, i: nat)
    requires i < |draws| && roll == (if n.sides.NaN? then Text.NaN else Text.Num(draws[i] + 1))
    requires (sum.NaN? <==> n.sides.NaN? && i > 0) && (sum.Num? ==> sum.n == Sum(DieValues(draws, i)))
    ensures JsAdd(sum, roll).NaN? <==> n.sides.NaN?
    ensures JsAdd(sum, roll).Num? ==> JsAdd(sum, roll).n == Sum(DieValues(draws, i + 1))
  {
    DieValuesSum(draws, i);
  }

  /** One more die adds its value to the sum. */
  lemma DieValuesSum(draws: seq<int>, k: nat)
    requires k < |draws|
    ensures Sum(DieValues(draws, k + 1)) == Sum(DieValues(draws, k)) + draws[k] + 1
  {
    var s := DieValues(draws, k + 1);
    assert s[..|s| - 1] == DieValues(draws, k);
  }

  /** The rolling half of `simulateDiceRoll`, on the parsed numbers. */
  method RollParsed(n: LocalNotation, draws: seq<int>) returns (r: LocalRoll)
    requires DrawsFit(n, draws)
    ensures |r.rolls| == RollCount(n) && r.modifier == n.modifier
    ensures forall i :: 0 <= i < |r.rolls| ==> r.rolls[i] == (if n.sides.NaN? then Text.NaN else Text.Num(draws[i] + 1))
    ensures r.total.NaN? <==> n.modifier.NaN? || (n.sides.NaN? && RollCount(n) > 0)
    ensures r.total.Num? ==> r.total.n == Sum(DieValues(draws, RollCount(n))) + n.modifier.n
    ensures r.total.Num? && n.sides.Num? && n.sides.n >= 1 ==>
              RollCount(n) + n.modifier.n <= r.total.n <= RollCount(n) * n.sides.n + n.modifier.n
  {
    var rolls := RollDice(n, draws);
    var sum := SumDice(n, draws, rolls);
    r := LocalRoll(rolls, JsAdd(sum, n.modifier), n.modifier);
    if r.total.Num? && n.sides.Num? && n.sides.n >= 1 {
      SumBounds(DieValues(draws, RollCount(n)), 1, n.sides.n);
    }
  }

  /**
   * `simulateDiceRoll`: parse, roll `count` dice of `sides` sides and add
   * the modifier. The total is the sum of the dice plus the modifier, NaN
   * when a number it needs is NaN; for positive sides it lies between
   * count + modifier and count * sides + modifier.
   */
  method SimulateDiceRoll(notation: string, draws: seq<int>) returns (n: LocalNotation, r: LocalRoll)
    requires DrawsFit(ParseLocal(notation), draws)
    ensures n == ParseLocal(notation)
    ensures |r.rolls| == RollCount(n) && r.modifier == n.modifier
    ensures forall i :: 0 <= i < |r.rolls| ==> r.rolls[i] == (if n.sides.NaN? then Text.NaN else Text.Num(draws[i] + 1))
    ensures r.total.NaN? <==> n.modifier.NaN? || (n.sides.NaN? && RollCount(n) > 0)
    ensures r.total.Num? ==> r.total.n == Sum(DieValues(draws, RollCount(n))) + n.modifier.n
    ensures r.total.Num? && n.sides.Num? && n.sides.n >= 1 ==>
              RollCount(n) + n.modifier.n <= r.total.n <= RollCount(n) * n.sides.n + n.modifier.n
  {
    n := ParseLocal(notation);
    r := RollParsed(n, draws);
  }

  /** A notation whose sides and modifier are numbers, so every total is a number. */
  predicate WholeRoll(n: LocalNotation)
  {
    n.sides.Num? && n.modifier.Num?
  }

  /** `damage` is a total `simulateDiceRoll` can produce for `notation` with positive sides. */
  predicate DamageFits(notation: string, damage: int)
  {
    var n := ParseLocal(notation);
    WholeRoll(n) && n.sides.n >= 1 ==>
      RollCount(n) + n.modifier.n <= damage <= RollCount(n) * n.sides.n + n.modifier.n
  }

  /** The `total` of `simulateDiceRoll` for a notation whose sides and modifier are numbers. */
  method RollDamage(notation: string, draws: seq<int>) returns (damage: int)
    requires WholeRoll(ParseLocal(notation)) && DrawsFit(ParseLocal(notation), draws)
    ensures DamageFits(notation, damage)
  {
    var n, roll := SimulateDiceRoll(notation, draws);
    damage := roll.total.n;
  }

  /** What the dice of an ability need: a whole total and draws that fit. */
  predicate AbilityRolls(a: GameServer.Ability, draws: seq<int>)
  {
    WholeRoll(ParseLocal(a.damage)) && DrawsFit(ParseLocal(a.damage), draws)
  }

  /** What the dice of the ability chosen at `distance` need, when one is in range. */
  predicate ChosenRolls(abilities: seq<GameServer.Ability>, distance: int, draws: seq<int>)
  {
    var first := GameServer.FirstInRange(abilities, distance);
    first.Some? ==> AbilityRolls(abilities[first.value], draws)
  }

  /** The dice of an enemy attack: a d20 above 10 hits, and a hit rolls the ability's damage. */
  method StrikeRoll(a: GameServer.Ability, hitRoll: int, draws: seq<int>) returns (hit: bool, damage: int)
    requires AbilityRolls(a, draws)
    ensures hit <==> hitRoll > 10
    ensures hit ==> DamageFits(a.damage, damage)
  {
    hit, damage := hitRoll > 10, 0;
    if hit {
      damage := RollDamage(a.damage, draws);
    }
  }

  /** The configured enemy abilities read as one die of their sides with no modifier. */
  lemma ConfiguredDamageRolls(enemyType: string, i: nat)
    requires enemyType in GameServer.EnemyConfigs && i < |GameServer.EnemyConfigs[enemyType].abilities|
    ensures var n := ParseLocal(GameServer.EnemyConfigs[enemyType].abilities[i].damage);
            WholeRoll(n) && n.count == Text.Num(1) && n.sides.Num? && n.sides.n >= 6 && n.modifier == Text.Num(0)
  {
    var d := GameServer.EnemyConfigs[enemyType].abilities[i].damage;
    assert Text.Decimal(1) == "1" && Text.Decimal(6) == "6" && Text.Decimal(8) == "8";
    assert Text.Decimal(12) == Text.Decimal(1) + ['2'];
    assert d == GameServer.Format(1, 6, 0) || d == GameServer.Format(1, 8, 0) || d == GameServer.Format(1, 12, 0);
    LocalParseFormat(1, 6, 0);
    LocalParseFormat(1, 8, 0);
    LocalParseFormat(1, 12, 0);
  }

  // ---------------------------------------------------------------------------
  // The page state of the battle screen

  /** `interactionMode`. */
  datatype Mode = MoveMode | AttackMode | NoMode

  /** An attack or spell as `selectAttack` stores it; `healing` holds the notation of a healing spell. */
  datatype Attack = Attack(name: string, damage: string, range: int, aoe: int, isSpell: bool,
                           manaCost: int, healing: Option<string>)

  /** What `performAttack` did. */
  datatype AttackOutcome = GameOver | NoAttack | NotEnoughMana | NoTarget | Healed(amount: int) | CastUtility
                         | Damaged(amount: int) | Missed

  /** The attack of the enemy's turn, if it attacked. */
  datatype EnemyStrike = NoStrike | Struck(ability: string, hit: bool, damage: int)

  class BattlePage {
    const cols: int
    const rows: int
    const terrain: HexGrid.Terrain
    const playerSpeed: int
    const playerMaxHealth: int
    const playerMaxMana: int
    const enemyMaxHealth: int
    const enemyAbilities: seq<GameServer.Ability>

    var playerPos: Cell
    var enemyPos: Cell
    var currentPlayerSpeed: int
    var mode: Mode
    var isDrawingPath: bool
    var currentPath: seq<Cell>
    var highlightedCells: seq<Cell>
    var selectedTargetCell: Option<Cell>
    var currentAttack: Option<Attack>
    var currentAOECells: seq<Cell>
    var playerHealth: int
    var playerMana: int
    var enemyHealth: int
    var isPlayerTurn: bool
    var gameEnded: bool
    /** The two numbers of the page's "mana/max" text. */
    var manaShown: int
    var manaShownMax: int

    twostate predicate GridSame()
      reads this
    {
      playerPos == old(playerPos) && enemyPos == old(enemyPos) && currentPlayerSpeed == old(currentPlayerSpeed)
    }

    twostate predicate InteractionSame()
      reads this
    {
      mode == old(mode) && isDrawingPath == old(isDrawingPath) && currentPath == old(currentPath) &&
      highlightedCells == old(highlightedCells) && selectedTargetCell == old(selectedTargetCell) &&
      currentAttack == old(currentAttack) && currentAOECells == old(currentAOECells)
    }

    twostate predicate CombatSame()
      reads this
    {
      playerHealth == old(playerHealth) && playerMana == old(playerMana) && enemyHealth == old(enemyHealth) &&
      isPlayerTurn == old(isPlayerTurn) && gameEnded == old(gameEnded) &&
      manaShown == old(manaShown) && manaShownMax == old(manaShownMax)
    }

    /** What `setInteractionMode(m)` leaves: the mode set, highlights, path, target and area cleared. */
    predicate Cleared(m: Mode)
      reads this
    {
      mode == m && highlightedCells == [] && currentPath == [] && selectedTargetCell == None && currentAOECells == []
    }

    /** The drawn path starts on the player and is drawable. */
    predicate PathOk()
      reads this
    {
      currentPath == [] || (currentPath[0] == playerPos && BattleGrid.Drawable(currentPath))
    }

    /** `isInRange`: within `range` of the player. */
    predicate IsInRange(col: int, row: int, range: int)
      reads this
    {
      BattleGrid.GetDistance(playerPos.col, playerPos.row, col, row) <= range
    }

    /** The page globals at load: move mode, full speed, the mana text showing the mana. */
    constructor(cols: int, rows: int, terrain: HexGrid.Terrain, playerPos: Cell, enemyPos: Cell, speed: int,
                hp: int, maxHp: int, mana: int, maxMana: int, enemyHp: int, enemyMaxHp: int,
                abilities: seq<GameServer.Ability>)
      ensures this.cols == cols && this.rows == rows && this.terrain == terrain
      ensures this.playerPos == playerPos && this.enemyPos == enemyPos
      ensures playerSpeed == speed && currentPlayerSpeed == speed
      ensures playerHealth == hp && playerMaxHealth == maxHp && playerMana == mana && playerMaxMana == maxMana
      ensures enemyHealth == enemyHp && enemyMaxHealth == enemyMaxHp && enemyAbilities == abilities
      ensures Cleared(MoveMode) && !isDrawingPath && currentAttack == None
      ensures isPlayerTurn && !gameEnded && manaShown == mana && manaShownMax == maxMana
    {
      this.cols, this.rows, this.terrain := cols, rows, terrain;
      this.playerPos, this.enemyPos := playerPos, enemyPos;
      playerSpeed, currentPlayerSpeed := speed, speed;
      playerHealth, playerMaxHealth, playerMana, playerMaxMana := hp, maxHp, mana, maxMana;
      enemyHealth, enemyMaxHealth, enemyAbilities := enemyHp, enemyMaxHp, abilities;
      mode, isDrawingPath, currentPath, highlightedCells := MoveMode, false, [], [];
      selectedTargetCell, currentAttack, currentAOECells := None, None, [];
      isPlayerTurn, gameEnded, manaShown, manaShownMax := true, false, mana, maxMana;
    }

    /** `setInteractionMode`. */
    method SetInteractionMode(m: Mode)
      modifies this
      ensures Cleared(m) && isDrawingPath == old(isDrawingPath) && currentAttack == old(currentAttack)
      ensures GridSame() && CombatSame() && PathOk()
    {
      mode, highlightedCells, currentPath, selectedTargetCell, currentAOECells := m, [], [], None, [];
    }

    /** `highlightCellsInRange`: the highlighted cells become the grid cells within `range` of `center`. */
    method HighlightCellsInRange(center: Cell, range: int)
      modifies this
      ensures forall c :: c in highlightedCells <==> BattleGrid.Within(c, center, range, cols, rows)
      ensures BattleGrid.ColumnMajor(highlightedCells)
      ensures mode == old(mode) && isDrawingPath == old(isDrawingPath) && currentPath == old(currentPath)
      ensures selectedTargetCell == old(selectedTargetCell) && currentAttack == old(currentAttack)
      ensures currentAOECells == old(currentAOECells) && GridSame() && CombatSame()
    {
      highlightedCells := BattleGrid.CellsWithin(center, range, cols, rows);
    }

    /** `selectAttack`: store the attack, switch to attack mode and highlight the grid cells in its range. */
    method SelectAttack(a: Attack)
      modifies this
      ensures currentAttack == Some(a) && mode == AttackMode && isDrawingPath == old(isDrawingPath)
      ensures currentPath == [] && selectedTargetCell == None && currentAOECells == []
      ensures forall c :: c in highlightedCells <==>
                0 <= c.col < cols && 0 <= c.row < rows && IsInRange(c.col, c.row, a.range)
      ensures GridSame() && CombatSame()
    {
      currentAttack := Some(a);
      SetInteractionMode(AttackMode);
      HighlightCellsInRange(playerPos, a.range);
      selectedTargetCell, currentAOECells := None, [];
    }

    /**
     * `handleMouseDown` on a cell (panning aside): in move mode a press on
     * the player starts a path; in attack mode a press within range selects
     * the target and, for an area attack, the cells around it.
     */
    method HandleMouseDown(cell: Option<Cell>)
      modifies this
      ensures old(mode) == MoveMode && cell == Some(playerPos) ==> isDrawingPath && currentPath == [playerPos]
      ensures old(mode) == AttackMode && old(currentAttack).Some? && cell.Some? &&
              IsInRange(cell.value.col, cell.value.row, old(currentAttack).value.range) ==>
                selectedTargetCell == cell &&
                (old(currentAttack).value.aoe > 0 ==>
                  forall c :: c in currentAOECells <==> BattleGrid.Within(c, cell.value, old(currentAttack).value.aoe, cols, rows)) &&
                (old(currentAttack).value.aoe <= 0 ==> currentAOECells == old(currentAOECells))
      ensures !(old(mode) == MoveMode && cell == Some(playerPos)) ==> isDrawingPath == old(isDrawingPath) && currentPath == old(currentPath)
      ensures !(old(mode) == AttackMode && old(currentAttack).Some? && cell.Some? &&
                IsInRange(cell.value.col, cell.value.row, old(currentAttack).value.range)) ==>
                selectedTargetCell == old(selectedTargetCell) && currentAOECells == old(currentAOECells)
      ensures mode == old(mode) && highlightedCells == old(highlightedCells) && currentAttack == old(currentAttack)
      ensures GridSame() && CombatSame() && (old(PathOk()) ==> PathOk())
    {
      if cell.None? {
        return;
      }
      var c := cell.value;
      if mode == MoveMode {
        if c == playerPos {
          isDrawingPath := true;
          currentPath := [c];
        }
      } else if mode == AttackMode && currentAttack.Some? {
        if IsInRange(c.col, c.row, currentAttack.value.range) {
          selectedTargetCell := Some(c);
          if currentAttack.value.aoe > 0 {
            currentAOECells := BattleGrid.CellsWithin(c, currentAttack.value.aoe, cols, rows);
          }
        }
      }
    }

    /**
     * `handleMouseMove` on a cell (panning aside): while drawing in move mode
     * the path is extended or cut back; in attack mode hovering within range
     * previews the area of an area attack and clears it otherwise.
     */
    method HandleMouseMove(cell: Option<Cell>)
      modifies this
      ensures old(mode) == MoveMode && old(isDrawingPath) && cell.Some? ==>
                currentPath == BattleGrid.EditPath(old(currentPath), cell.value)
      ensures !(old(mode) == MoveMode && old(isDrawingPath) && cell.Some?) ==> currentPath == old(currentPath)
      ensures old(mode) == AttackMode && old(currentAttack).Some? && cell.Some? &&
              IsInRange(cell.value.col, cell.value.row, old(currentAttack).value.range) ==>
                forall c :: c in currentAOECells <==>
                  old(currentAttack).value.aoe > 0 && BattleGrid.Within(c, cell.value, old(currentAttack).value.aoe, cols, rows)
      ensures !(old(mode) == AttackMode && old(currentAttack).Some? && cell.Some? &&
                IsInRange(cell.value.col, cell.value.row, old(currentAttack).value.range)) ==>
                currentAOECells == old(currentAOECells)
      ensures mode == old(mode) && isDrawingPath == old(isDrawingPath) && highlightedCells == old(highlightedCells)
      ensures selectedTargetCell == old(selectedTargetCell) && currentAttack == old(currentAttack)
      ensures GridSame() && CombatSame() && (old(PathOk()) ==> PathOk())
    {
      if cell.None? {
        return;
      }
      var c := cell.value;
      if mode == MoveMode && isDrawingPath {
        if PathOk() {
          BattleGrid.EditKeepsDrawable(currentPath, c);
        }
        currentPath := BattleGrid.EditPath(currentPath, c);
      } else if mode == AttackMode && currentAttack.Some? {
        if IsInRange(c.col, c.row, currentAttack.value.range) {
          if currentAttack.value.aoe > 0 {
            currentAOECells := BattleGrid.CellsWithin(c, currentAttack.value.aoe, cols, rows);
          } else {
            currentAOECells := [];
          }
        }
      }
    }

    /** `handleMouseUp` (panning aside): drawing stops in move mode. */
    method HandleMouseUp()
      modifies this
      ensures isDrawingPath == (old(isDrawingPath) && old(mode) != MoveMode)
      ensures mode == old(mode) && currentPath == old(currentPath) && highlightedCells == old(highlightedCells)
      ensures selectedTargetCell == old(selectedTargetCell) && currentAttack == old(currentAttack)
      ensures currentAOECells == old(currentAOECells) && GridSame() && CombatSame()
    {
      if mode == MoveMode {
        isDrawingPath := false;
      }
    }

    /**
     * `confirmMove`: a path of more than one cell whose cost the remaining
     * speed covers moves the player to its last cell, pays the cost and
     * clears the path; otherwise nothing changes.
     */
    method ConfirmMove() returns (moved: bool)
      modifies this
      ensures moved <==> |old(currentPath)| > 1 && BattleGrid.PathCost(|old(currentPath)|, terrain) <= old(currentPlayerSpeed)
      ensures moved ==> playerPos == old(currentPath)[|old(currentPath)| - 1] && currentPath == [] &&
                        currentPlayerSpeed == old(currentPlayerSpeed) - BattleGrid.PathCost(|old(currentPath)|, terrain)
      ensures !moved ==> playerPos == old(playerPos) && currentPlayerSpeed == old(currentPlayerSpeed) && currentPath == old(currentPath)
      ensures old(currentPlayerSpeed) >= 0 ==> currentPlayerSpeed >= 0
      ensures enemyPos == old(enemyPos) && mode == old(mode) && isDrawingPath == old(isDrawingPath)
      ensures highlightedCells == old(highlightedCells) && selectedTargetCell == old(selectedTargetCell)
      ensures currentAttack == old(currentAttack) && currentAOECells == old(currentAOECells) && CombatSame()
      ensures old(PathOk()) ==> PathOk()
    {
      moved := false;
      if |currentPath| > 1 {
        var pathCost := BattleGrid.CalculatePathCost(currentPath, terrain);
        if pathCost <= currentPlayerSpeed {
          playerPos := currentPath[|currentPath| - 1];
          currentPlayerSpeed := currentPlayerSpeed - pathCost;
          currentPath := [];
          moved := true;
        }
      }
    }

    /** `applyDamage`: enemy health drops by `amount`, not below 0; reaching 0 ends the game. */
    method ApplyDamage(amount: int)
      modifies this
      ensures enemyHealth == Max(0, old(enemyHealth) - amount)
      ensures gameEnded == (old(gameEnded) || enemyHealth == 0)
      ensures playerHealth == old(playerHealth) && playerMana == old(playerMana) && isPlayerTurn == old(isPlayerTurn)
      ensures manaShown == old(manaShown) && manaShownMax == old(manaShownMax)
      ensures GridSame() && InteractionSame()
    {
      enemyHealth := Max(0, enemyHealth - amount);
      if enemyHealth <= 0 {
        gameEnded := true;
      }
    }

    /** `applyHealing`: player health rises by `amount`, not above the maximum. */
    method ApplyHealing(amount: int)
      modifies this
      ensures playerHealth == Min(playerMaxHealth, old(playerHealth) + amount)
      ensures playerMana == old(playerMana) && enemyHealth == old(enemyHealth) && isPlayerTurn == old(isPlayerTurn)
      ensures gameEnded == old(gameEnded) && manaShown == old(manaShown) && manaShownMax == old(manaShownMax)
      ensures GridSame() && InteractionSame()
    {
      playerHealth := Min(playerMaxHealth, playerHealth + amount);
    }

    /** `applyDamageToPlayer`: player health drops by `amount`, not below 0; reaching 0 ends the game. */
    method ApplyDamageToPlayer(amount: int)
      modifies this
      ensures playerHealth == Max(0, old(playerHealth) - amount)
      ensures gameEnded == (old(gameEnded) || playerHealth == 0)
      ensures playerMana == old(playerMana) && enemyHealth == old(enemyHealth) && isPlayerTurn == old(isPlayerTurn)
      ensures manaShown == old(manaShown) && manaShownMax == old(manaShownMax)
      ensures GridSame() && InteractionSame()
    {
      playerHealth := Max(0, playerHealth - amount);
      if playerHealth <= 0 {
        gameEnded := true;
      }
    }

    /** `updatePlayerMana`: the mana text shows the mana. */
    method UpdatePlayerMana()
      modifies this
      ensures manaShown == playerMana && manaShownMax == playerMaxMana
      ensures playerHealth == old(playerHealth) && playerMana == old(playerMana) && enemyHealth == old(enemyHealth)
      ensures isPlayerTurn == old(isPlayerTurn) && gameEnded == old(gameEnded)
      ensures GridSame() && InteractionSame()
    {
      manaShown, manaShownMax := playerMana, playerMaxMana;
    }

    /** `resetAttackState`: target, area and highlights cleared, back to move mode. */
    method ResetAttackState()
      modifies this
      ensures Cleared(MoveMode) && isDrawingPath == old(isDrawingPath) && currentAttack == old(currentAttack)
      ensures GridSame() && CombatSame() && PathOk()
    {
      selectedTargetCell, currentAOECells, highlightedCells := None, [], [];
      SetInteractionMode(MoveMode);
    }

    /** The gates of `performAttack`: the game goes on, an attack is chosen, a spell is paid for, a target is set. */
    predicate CanAttack()
      reads this
    {
      !gameEnded && currentAttack.Some? &&
      !(currentAttack.value.isSpell && playerMana < currentAttack.value.manaCost) &&
      selectedTargetCell.Some?
    }

    /**
     * What `performAttack` does: each gate, in order, stops it with its own
     * outcome and nothing changed; past them a hit heals, casts a harmless
     * spell or damages, a spell is paid for on a hit and on a miss alike, and
     * the page goes back to move mode.
     */
    twostate predicate Performed(hit: bool, rolled: int, outcome: AttackOutcome)
      reads this
    {
      (old(gameEnded) ==> outcome == GameOver) &&
      (!old(gameEnded) && old(currentAttack).None? ==> outcome == NoAttack) &&
      ((!old(gameEnded) && old(currentAttack).Some? && old(currentAttack).value.isSpell &&
        old(playerMana) < old(currentAttack).value.manaCost) ==> outcome == NotEnoughMana) &&
      ((!old(gameEnded) && old(currentAttack).Some? &&
        !(old(currentAttack).value.isSpell && old(playerMana) < old(currentAttack).value.manaCost) &&
        old(selectedTargetCell).None?) ==> outcome == NoTarget) &&
      (!old(CanAttack()) ==> GridSame() && InteractionSame() && CombatSame()) &&
      (old(CanAttack()) ==>
        var a := old(currentAttack).value;
        (!hit ==> outcome == Missed) &&
        (hit && a.healing.Some? ==> outcome == Healed(rolled)) &&
        (hit && a.healing.None? && a.damage == "0" ==> outcome == CastUtility) &&
        (hit && a.healing.None? && a.damage != "0" ==> outcome == Damaged(rolled)) &&
        playerHealth == (if outcome.Healed? then Min(playerMaxHealth, old(playerHealth) + rolled) else old(playerHealth)) &&
        enemyHealth == (if outcome.Damaged? then Max(0, old(enemyHealth) - rolled) else old(enemyHealth)) &&
        gameEnded == (outcome.Damaged? && enemyHealth == 0) &&
        (a.isSpell ==> playerMana == old(playerMana) - a.manaCost && playerMana >= 0 &&
                       manaShown == playerMana && manaShownMax == playerMaxMana) &&
        (!a.isSpell ==> playerMana == old(playerMana) && manaShown == old(manaShown) && manaShownMax == old(manaShownMax)) &&
        Cleared(MoveMode) && isDrawingPath == old(isDrawingPath) && currentAttack == old(currentAttack) &&
        GridSame() && isPlayerTurn == old(isPlayerTurn))
    }

    /**
     * `performAttack`, with the server's hit decision `hit` and the rolled
     * damage or healing total `rolled` as inputs. Past its gates it heals,
     * casts a harmless spell (damage "0") or damages on a hit, charges a spell
     * its mana on a hit and on a miss alike, and resets the attack state.
     */
    method PerformAttack(hit: bool, rolled: int) returns (outcome: AttackOutcome)
      modifies this
      ensures Performed(hit, rolled, outcome)
    {
      if gameEnded {
        return GameOver;
      }
      if currentAttack.None? {
        return NoAttack;
      }
      var a := currentAttack.value;
      if a.isSpell && playerMana < a.manaCost {
        return NotEnoughMana;
      }
      if selectedTargetCell.None? {
        return NoTarget;
      }
      if hit {
        if a.healing.Some? {
          ApplyHealing(rolled);
          outcome := Healed(rolled);
        } else if a.damage == "0" {
          outcome := CastUtility;
        } else {
          ApplyDamage(rolled);
          outcome := Damaged(rolled);
        }
      } else {
        outcome := Missed;
      }
      if a.isSpell {
        playerMana := playerMana - a.manaCost;
        UpdatePlayerMana();
      }
      ResetAttackState();
    }

    /** `confirmAttack`: attack only when the target is the enemy's cell or the enemy stands in the area. */
    method ConfirmAttack(hit: bool, rolled: int) returns (outcome: Option<AttackOutcome>)
      modifies this
      ensures outcome.Some? <==>
                old(selectedTargetCell).Some? && (old(selectedTargetCell).value == enemyPos || enemyPos in old(currentAOECells))
      ensures outcome.None? ==> GridSame() && InteractionSame() && CombatSame()
      ensures outcome.Some? ==> Performed(hit, rolled, outcome.value)
      ensures (outcome.Some? && old(currentAttack).Some? && old(currentAttack).value.isSpell &&
               old(playerMana) < old(currentAttack).value.manaCost && !old(gameEnded)) ==> outcome == Some(NotEnoughMana)
      ensures outcome.Some? && old(CanAttack()) && !hit ==> outcome == Some(Missed)
      ensures outcome.Some? && old(CanAttack()) && hit && old(currentAttack).value.healing.None? &&
              old(currentAttack).value.damage != "0" ==>
                outcome == Some(Damaged(rolled)) && enemyHealth == Max(0, old(enemyHealth) - rolled)
      ensures outcome.Some? && old(CanAttack()) && old(currentAttack).value.isSpell ==>
                playerMana == old(playerMana) - old(currentAttack).value.manaCost
      ensures enemyPos == old(enemyPos)
    {
      if selectedTargetCell.Some? {
        var targetIsEnemy := selectedTargetCell.value == enemyPos;
        var enemyInAOE := enemyPos in currentAOECells;
        if targetIsEnemy || enemyInAOE {
          var o := PerformAttack(hit, rolled);
          return Some(o);
        }
      }
      return None;
    }

    /**
     * `endTurn` as written: speed back to full and interaction off, but the
     * mana restored only in the page text, never in `playerMana`.
     */
    method EndTurnAsWritten()
      modifies this
      ensures currentPlayerSpeed == playerSpeed && Cleared(NoMode)
      ensures isPlayerTurn == old(isPlayerTurn) && isDrawingPath == old(isDrawingPath) && currentAttack == old(currentAttack)
      ensures manaShown == Min(old(manaShownMax), old(manaShown) + 5) && manaShownMax == old(manaShownMax)
      ensures playerMana == old(playerMana)
      ensures playerPos == old(playerPos) && enemyPos == old(enemyPos)
      ensures playerHealth == old(playerHealth) && enemyHealth == old(enemyHealth) && gameEnded == old(gameEnded)
    {
      currentPlayerSpeed := playerSpeed;
      SetInteractionMode(NoMode);
      var current, max := manaShown, manaShownMax;
      var restored := Min(max, current + 5);
      manaShown := restored;
    }

    /**
     * `endTurn` as evidently intended: speed back to full, interaction off,
     * and 5 mana restored up to the maximum in `playerMana` itself, which
     * the text then shows.
     */
    method EndTurn()
      modifies this
      ensures currentPlayerSpeed == playerSpeed && Cleared(NoMode)
      ensures isPlayerTurn == old(isPlayerTurn) && isDrawingPath == old(isDrawingPath) && currentAttack == old(currentAttack)
      ensures playerMana == Min(playerMaxMana, old(playerMana) + 5)
      ensures manaShown == playerMana && manaShownMax == playerMaxMana
      ensures old(playerMana) <= playerMaxMana ==> old(playerMana) <= playerMana <= playerMaxMana
      ensures playerPos == old(playerPos) && enemyPos == old(enemyPos)
      ensures playerHealth == old(playerHealth) && enemyHealth == old(enemyHealth) && gameEnded == old(gameEnded)
    {
      currentPlayerSpeed := playerSpeed;
      SetInteractionMode(NoMode);
      playerMana := Min(playerMaxMana, playerMana + 5);
      UpdatePlayerMana();
    }

    /** `finishEnemyTurn`: unless the game has ended, the player's turn begins in move mode. */
    method FinishEnemyTurn()
      modifies this
      ensures !old(gameEnded) ==> isPlayerTurn && Cleared(MoveMode) && isDrawingPath == old(isDrawingPath) &&
                                  currentAttack == old(currentAttack)
      ensures old(gameEnded) ==> isPlayerTurn == old(isPlayerTurn) && InteractionSame()
      ensures GridSame() && playerHealth == old(playerHealth) && playerMana == old(playerMana)
      ensures enemyHealth == old(enemyHealth) && gameEnded == old(gameEnded)
      ensures manaShown == old(manaShown) && manaShownMax == old(manaShownMax)
    {
      if !gameEnded {
        isPlayerTurn := true;
        SetInteractionMode(MoveMode);
      }
    }

    /** What the dice of the ability the enemy picks from `pos` need. */
    predicate StrikeRolls(pos: Cell, draws: seq<int>)
      reads this
    {
      ChosenRolls(enemyAbilities, Geometry.Chebyshev(pos, playerPos), draws)
    }

    /**
     * What the dice of `executeLocalEnemyAI` need: those of the ability in
     * reach where the enemy stands, or else of the one in reach after its step.
     */
    predicate LocalAIRolls(draws: seq<int>)
      reads this
    {
      if GameServer.FirstInRange(enemyAbilities, Geometry.Chebyshev(enemyPos, playerPos)).Some?
      then StrikeRolls(enemyPos, draws)
      else StrikeRolls(Geometry.StepToward(enemyPos, playerPos), draws)
    }

    /**
     * What an enemy strike, or its absence, leaves behind: a hit lowers player
     * health by its damage (not below 0) and ends the game exactly when health
     * reaches 0; otherwise health is unchanged and, unless the game is over,
     * the turn goes back to the player in move mode.
     */
    twostate predicate StrikeResolved(strike: EnemyStrike)
      reads this
    {
      (strike.Struck? && strike.hit ==> playerHealth == Max(0, old(playerHealth) - strike.damage)) &&
      (!(strike.Struck? && strike.hit) ==> playerHealth == old(playerHealth)) &&
      playerMana == old(playerMana) && enemyHealth == old(enemyHealth) &&
      gameEnded == (old(gameEnded) || (strike.Struck? && strike.hit && playerHealth == 0)) &&
      (!gameEnded ==> isPlayerTurn && Cleared(MoveMode) && isDrawingPath == old(isDrawingPath) &&
                      currentAttack == old(currentAttack)) &&
      (gameEnded ==> isPlayerTurn == old(isPlayerTurn) && InteractionSame())
    }

    /** The state half of an enemy attack: a hit damages the player; then the turn ends. */
    method ResolveStrike(name: string, hit: bool, damage: int) returns (strike: EnemyStrike)
      modifies this
      ensures strike == Struck(name, hit, damage)
      ensures strike.hit ==> playerHealth == Max(0, old(playerHealth) - strike.damage) &&
                             gameEnded == (old(gameEnded) || playerHealth == 0)
      ensures !strike.hit ==> playerHealth == old(playerHealth) && gameEnded == old(gameEnded)
      ensures GridSame() && StrikeResolved(strike)
    {
      if hit {
        ApplyDamageToPlayer(damage);
      }
      strike := Struck(name, hit, damage);
      FinishEnemyTurn();
    }

    /** The enemy's attack with `a`: a d20 above 10 hits for the local damage roll; then the turn ends. */
    method EnemyStrikeWith(a: GameServer.Ability, hitRoll: int, draws: seq<int>) returns (strike: EnemyStrike)
      requires 1 <= hitRoll <= 20
      requires a in enemyAbilities && AbilityRolls(a, draws)
      modifies this
      ensures strike.Struck? && strike.ability == a.name && (strike.hit <==> hitRoll > 10)
      ensures strike.hit ==> DamageFits(a.damage, strike.damage) &&
                             playerHealth == Max(0, old(playerHealth) - strike.damage) &&
                             gameEnded == (old(gameEnded) || playerHealth == 0)
      ensures !strike.hit ==> playerHealth == old(playerHealth) && gameEnded == old(gameEnded)
      ensures GridSame() && StrikeResolved(strike)
    {
      var hit, damage := StrikeRoll(a, hitRoll, draws);
      strike := ResolveStrike(a.name, hit, damage);
    }

    /**
     * `checkEnemyAttack`: the first ability whose range reaches the player
     * attacks; with none the turn simply ends.
     */
    method CheckEnemyAttack(hitRoll: int, draws: seq<int>) returns (strike: EnemyStrike)
      requires 1 <= hitRoll <= 20 && StrikeRolls(enemyPos, draws)
      modifies this
      ensures var first := GameServer.FirstInRange(enemyAbilities, Geometry.Chebyshev(enemyPos, playerPos));
              (first.None? <==> strike == NoStrike) &&
              (first.Some? ==> strike.ability == enemyAbilities[first.value].name && (strike.hit <==> hitRoll > 10) &&
                               (strike.hit ==> DamageFits(enemyAbilities[first.value].damage, strike.damage)))
      ensures GridSame() && StrikeResolved(strike)
    {
      var distance := BattleGrid.GetDistance(enemyPos.col, enemyPos.row, playerPos.col, playerPos.row);
      assert Cell(enemyPos.col, enemyPos.row) == enemyPos && Cell(playerPos.col, playerPos.row) == playerPos;
      var chosen := GameServer.ChooseAbility(enemyAbilities, distance);
      if chosen.Some? {
        var a := enemyAbilities[chosen.value];
        strike := EnemyStrikeWith(a, hitRoll, draws);
      } else {
        strike := NoStrike;
        FinishEnemyTurn();
      }
    }

    /**
     * `executeLocalEnemyAI`: attack with the first ability in range, or else
     * step one cell toward the player on each axis and try again from there.
     */
    method ExecuteLocalEnemyAI(hitRoll: int, draws: seq<int>) returns (moved: bool, strike: EnemyStrike)
      requires 1 <= hitRoll <= 20 && LocalAIRolls(draws)
      modifies this
      ensures moved <==> GameServer.FirstInRange(enemyAbilities, Geometry.Chebyshev(old(enemyPos), playerPos)).None?
      ensures !moved ==> enemyPos == old(enemyPos) && strike.Struck?
      ensures moved ==> enemyPos == Geometry.StepToward(old(enemyPos), playerPos) &&
                        Geometry.Chebyshev(enemyPos, playerPos) ==
                          if old(enemyPos) == playerPos then 0 else Geometry.Chebyshev(old(enemyPos), playerPos) - 1
      ensures var first := GameServer.FirstInRange(enemyAbilities, Geometry.Chebyshev(enemyPos, playerPos));
              (first.None? <==> strike == NoStrike) &&
              (first.Some? ==> strike.ability == enemyAbilities[first.value].name && (strike.hit <==> hitRoll > 10) &&
                               (strike.hit ==> DamageFits(enemyAbilities[first.value].damage, strike.damage)))
      ensures playerPos == old(playerPos) && StrikeResolved(strike)
    {
      var distance := BattleGrid.GetDistance(enemyPos.col, enemyPos.row, playerPos.col, playerPos.row);
      assert Cell(enemyPos.col, enemyPos.row) == enemyPos && Cell(playerPos.col, playerPos.row) == playerPos;
      var chosen := GameServer.ChooseAbility(enemyAbilities, distance);
      if chosen.Some? {
        var a := enemyAbilities[chosen.value];
        moved := false;
        strike := EnemyStrikeWith(a, hitRoll, draws);
      } else {
        moved := true;
        Geometry.StepTowardCloses(enemyPos, playerPos);
        Geometry.ChebyshevSymmetric(enemyPos, playerPos);
        var next := Geometry.StepToward(enemyPos, playerPos);
        Geometry.ChebyshevSymmetric(next, playerPos);
        enemyPos := next;
        strike := CheckEnemyAttack(hitRoll, draws);
      }
    }
  }

  /** A five-mana spell aimed at an enemy standing next to the player. */
  const Bolt := Attack("Magic Missile", "1d4+1", 5, 0, true, 5, None)

  /**
   * With `endTurn` as written: a player with 0 of 20 mana ends the turn, the
   * page then shows 5 mana, and the five-mana spell is still refused.
   */
  method ManaAfterEndTurnAsWritten() returns (shown: int, outcome: Option<AttackOutcome>)
    ensures shown == 5 && outcome == Some(NotEnoughMana)
  {
    var page := new BattlePage(10, 8, HexGrid.Forest, Cell(2, 2), Cell(3, 2), 30, 20, 20, 0, 20, 15, 15, []);
    page.EndTurnAsWritten();
    page.SelectAttack(Bolt);
    page.HandleMouseDown(Some(Cell(3, 2)));
    shown := page.manaShown;
    outcome := page.ConfirmAttack(true, 3);
  }

  /** With the corrected `EndTurn` the same player is shown 5 mana and the spell lands. */
  method ManaAfterEndTurn() returns (shown: int, outcome: Option<AttackOutcome>, mana: int)
    ensures shown == 5 && outcome == Some(Damaged(3)) && mana == 0
  {
    var page := new BattlePage(10, 8, HexGrid.Forest, Cell(2, 2), Cell(3, 2), 30, 20, 20, 0, 20, 15, 15, []);
    page.EndTurn();
    page.SelectAttack(Bolt);
    page.HandleMouseDown(Some(Cell(3, 2)));
    shown := page.manaShown;
    outcome := page.ConfirmAttack(true, 3);
    mana := page.playerMana;
  }
}
