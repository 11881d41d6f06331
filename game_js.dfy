/**
 * The one rule of the character page that is game logic: the ability
 * modifier shown next to each score (static/js/game.js, `computeAbilityModifier`),
 * which is the D&D 5th-edition rule floor((score - 10) / 2).
 */
module GameJs {
  import opened Common
  import Text

  /** What the page shows: nothing, or a modifier. */
  datatype Shown = Blank | Modifier(value: int)

  /** The score used for `ability`: a missing or zero score counts as 10. */
  function ScoreOf(scores: map<string, int>, ability: string): (score: int)
    ensures score != 0
    ensures Text.Lower(ability) in scores && scores[Text.Lower(ability)] != 0 ==> score == scores[Text.Lower(ability)]
    ensures !(Text.Lower(ability) in scores && scores[Text.Lower(ability)] != 0) ==> score == 10
  {
    var key := Text.Lower(ability);
    if key in scores && scores[key] != 0 then scores[key] else 10
  }

  /**
   * `computeAbilityModifier`: blank for a missing or empty ability name or
   * missing scores, else half the distance of the score from 10, rounded down.
   */
  function ComputeAbilityModifier(ability: Option<string>, scores: Option<map<string, int>>): (r: Shown)
    ensures r == Blank <==> ability.None? || ability.value == "" || scores.None?
  {
    if ability.None? || ability.value == "" || scores.None? then Blank
    else Modifier((ScoreOf(scores.value, ability.value) - 10) / 2)
  }

  /** The modifier is the floor of half the score's distance from 10. */
  lemma ModifierIsHalfRoundedDown(ability: string, scores: map<string, int>)
    requires ability != ""
    ensures var m := ComputeAbilityModifier(Some(ability), Some(scores)).value;
            var s := ScoreOf(scores, ability);
            2 * m <= s - 10 < 2 * m + 2
  {
  }

  /** A higher score never gives a lower modifier. */
  lemma ModifierMonotone(ability: string, scores: map<string, int>, higher: int)
    requires ability != "" && Text.Lower(ability) in scores && scores[Text.Lower(ability)] != 0
    requires higher >= scores[Text.Lower(ability)]
    ensures ComputeAbilityModifier(Some(ability), Some(scores)).value <=
            ComputeAbilityModifier(Some(ability), Some(scores[Text.Lower(ability) := higher])).value
  {
    var key := Text.Lower(ability);
    var low, high := scores[key] - 10, higher - 10;
    assert (low / 2) * 2 <= low <= high < (high / 2) * 2 + 2;
  }

  /** The lookup ignores the case of the ability name. */
  lemma ModifierIgnoresCase(a: string, b: string, scores: Option<map<string, int>>)
    requires Text.Lower(a) == Text.Lower(b)
    ensures ComputeAbilityModifier(Some(a), scores) == ComputeAbilityModifier(Some(b), scores)
  {
    assert |a| == |Text.Lower(a)| == |Text.Lower(b)| == |b|;
  }

  /** The values the rule gives around 10, and the unknown ability counting as 10. */
  lemma ModifierExamples()
    ensures ComputeAbilityModifier(Some("str"), Some(map["str" := 8])) == Modifier(-1)
    ensures ComputeAbilityModifier(Some("str"), Some(map["str" := 9])) == Modifier(-1)
    ensures ComputeAbilityModifier(Some("str"), Some(map["str" := 10])) == Modifier(0)
    ensures ComputeAbilityModifier(Some("str"), Some(map["str" := 20])) == Modifier(5)
    ensures ComputeAbilityModifier(Some("str"), Some(map["str" := 0])) == Modifier(0)
    ensures ComputeAbilityModifier(Some("str"), Some(map[])) == Modifier(0)
  {
    assert Text.Lower("str") == "str" by {
      Text.LowerFixed("str");
    }
  }
}
