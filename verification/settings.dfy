/** The configuration the scanner consumes: field constraints and defaults. */
module Settings {
  import opened Common

  /** `GamificationSettings`: every switch defaults to on. */
  datatype GamificationSettings = GamificationSettings(enabled: bool, showAchievements: bool, trackStats: bool)

  /** `Config`. The coverage target is a real number; the validator's bounds are
      exact on it. */
  datatype Config = Config(
    complexityThreshold: int,
    targetCoverage: real,
    languages: seq<string>,
    ignore: seq<string>,
    gamification: GamificationSettings)

  const MinThreshold: int := 1
  const MaxThreshold: int := 20

  /** The field constraints every `Config` is validated against. */
  predicate Valid(c: Config)
  {
    MinThreshold <= c.complexityThreshold <= MaxThreshold && 0.0 <= c.targetCoverage <= 1.0
  }

  /** Building a `Config` from field values: validation either accepts the
      values unchanged or refuses them. */
  function MakeConfig(threshold: int, target: real, languages: seq<string>, ignore: seq<string>,
                      gamification: GamificationSettings): (r: Result<Config>)
    ensures r.Ok? <==> 1 <= threshold <= 20 && 0.0 <= target <= 1.0
    ensures r.Ok? ==> Valid(r.value)
    ensures r.Ok? ==> r.value.complexityThreshold == threshold && r.value.targetCoverage == target &&
                      r.value.languages == languages && r.value.ignore == ignore &&
                      r.value.gamification == gamification
  {
    var c := Config(threshold, target, languages, ignore, gamification);
    if Valid(c) then Ok(c) else Err("validation error")
  }

  const DefaultGamification: GamificationSettings := GamificationSettings(true, true, true)
  const DefaultLanguages: seq<string> := ["python", "javascript", "typescript", "java"]
  const DefaultIgnore: seq<string> := ["**/test_*.py", "**/*.test.js", "**/migrations/**"]

  /** `Config.create_default()`. */
  function CreateDefault(): (c: Config)
    ensures Valid(c)
    ensures c.gamification.enabled && c.gamification.showAchievements && c.gamification.trackStats
    ensures "python" in c.languages
  {
    Config(10, 0.9, DefaultLanguages, DefaultIgnore, DefaultGamification)
  }

  /** The defaults pass the validator as they are: building a `Config` from the
      default field values gives the default `Config`. */
  lemma DefaultsPassValidation()
    ensures MakeConfig(10, 0.9, DefaultLanguages, DefaultIgnore, DefaultGamification) == Ok(CreateDefault())
  {
  }

  /** Thresholds 1 and 20 are accepted; 0 and 21 are refused, as are targets
      below 0 or above 1. */
  lemma ThresholdAndTargetBounds(languages: seq<string>, ignore: seq<string>, g: GamificationSettings)
    ensures MakeConfig(1, 0.0, languages, ignore, g).Ok? && MakeConfig(20, 1.0, languages, ignore, g).Ok?
    ensures MakeConfig(0, 0.9, languages, ignore, g).Err? && MakeConfig(21, 0.9, languages, ignore, g).Err?
    ensures MakeConfig(10, -0.1, languages, ignore, g).Err? && MakeConfig(10, 1.1, languages, ignore, g).Err?
  {
  }
}
