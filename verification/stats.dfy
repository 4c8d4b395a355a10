/** The statistics a developer accumulates and the achievements they unlock.
    The clock is a parameter: every operation that stamps a time takes `now`. */
module StatsTracking {
  import opened Common

  /** `Achievement`: unlocked exactly when it carries an unlock time. */
  datatype Achievement = Achievement(id: string, name: string, description: string, icon: string,
                                     unlockedAt: Option<string>)
  {
    predicate IsUnlocked()
    {
      unlockedAt.Some?
    }
  }

  /** `Stats`. The counters are whatever a stats file held, so they are `int`. */
  datatype Stats = Stats(
    totalFunctionsDocumented: int,
    totalCommitsWithGuard: int,
    highestComplexityDocumented: int,
    currentStreakDays: int,
    achievements: seq<Achievement>,
    lastActivity: Option<string>)

  const FirstSteps: string := "first_steps"
  const Marksman: string := "marksman"
  const MindReader: string := "mind_reader"
  const SpeedDemon: string := "speed_demon"
  const Perfectionist: string := "perfectionist"

  /** The achievements a tracker knows about, all locked. */
  const Catalogue: seq<Achievement> := [
    Achievement(FirstSteps, "\U{1F4DD} First Steps", "Document your first complex function", "\U{1F4DD}", None),
    Achievement(Marksman, "\U{1F3AF} Marksman", "Achieve 90% documentation coverage", "\U{1F3AF}", None),
    Achievement(MindReader, "\U{1F9E0} Mind Reader", "Document 10 functions with Score > 15", "\U{1F9E0}", None),
    Achievement(SpeedDemon, "\U{1F680} Speed Demon", "Document 5 functions in one session", "\U{1F680}", None),
    Achievement(Perfectionist, "\U{1F4AF} Perfectionist", "Achieve 100% documentation coverage", "\U{1F4AF}", None)
  ]

  /** The statistics of a tracker that finds no stats file (or cannot read it):
      zero counters, and the catalogue with nothing unlocked. */
  function FreshStats(): (s: Stats)
    ensures s.totalFunctionsDocumented == 0 && s.totalCommitsWithGuard == 0
    ensures s.highestComplexityDocumented == 0 && s.currentStreakDays == 0 && s.lastActivity == None
    ensures |s.achievements| == 5
    ensures forall k :: 0 <= k < |s.achievements| ==> !s.achievements[k].IsUnlocked()
  {
    Stats(0, 0, 0, 0, Catalogue, None)
  }

  /** The catalogue's ids are distinct. */
  lemma CatalogueIdsAreDistinct()
    ensures forall i, j :: 0 <= i < j < |Catalogue| ==> Catalogue[i].id != Catalogue[j].id
  {
  }

  // ---------------------------------------------------------------------------
  // Unlocking

  /** `_unlock_achievement`: every locked achievement with the given id gets the
      unlock time; every other achievement, and every one already unlocked, is
      left exactly as it was. */
  function Unlock(achievements: seq<Achievement>, id: string, now: string): (r: seq<Achievement>)
    ensures |r| == |achievements|
    ensures forall k :: 0 <= k < |r| ==>
      r[k].id == achievements[k].id && r[k].name == achievements[k].name &&
      r[k].description == achievements[k].description && r[k].icon == achievements[k].icon
    ensures forall k :: 0 <= k < |r| && achievements[k].id != id ==> r[k] == achievements[k]
    ensures forall k :: 0 <= k < |r| && achievements[k].IsUnlocked() ==> r[k] == achievements[k]
    ensures forall k :: 0 <= k < |r| && achievements[k].id == id && !achievements[k].IsUnlocked() ==>
      r[k].unlockedAt == Some(now)
  {
    if achievements == [] then []
    else
      var a := achievements[0];
      var head := if a.id == id && !a.IsUnlocked() then a.(unlockedAt := Some(now)) else a;
      [head] + Unlock(achievements[1..], id, now)
  }

  /** After unlocking, every achievement with that id is unlocked. */
  lemma UnlockUnlocksEveryMatch(achievements: seq<Achievement>, id: string, now: string)
    ensures forall k :: 0 <= k < |achievements| && achievements[k].id == id ==>
      Unlock(achievements, id, now)[k].IsUnlocked()
  {
  }

  /** Unlocking twice, at whatever times, is unlocking once: the first unlock
      time is kept. */
  lemma UnlockIsIdempotent(achievements: seq<Achievement>, id: string, now: string, later: string)
    ensures Unlock(Unlock(achievements, id, now), id, later) == Unlock(achievements, id, now)
  {
    var once := Unlock(achievements, id, now);
    UnlockUnlocksEveryMatch(achievements, id, now);
    var twice := Unlock(once, id, later);
    assert forall k :: 0 <= k < |once| ==> twice[k] == once[k];
  }

  /** Unlocking two different ids at one time can be done in either order. */
  lemma UnlocksCommute(achievements: seq<Achievement>, x: string, y: string, now: string)
    ensures Unlock(Unlock(achievements, x, now), y, now) == Unlock(Unlock(achievements, y, now), x, now)
  {
    var xy := Unlock(Unlock(achievements, x, now), y, now);
    var yx := Unlock(Unlock(achievements, y, now), x, now);
    assert forall k :: 0 <= k < |xy| ==> xy[k] == yx[k];
  }

  // ---------------------------------------------------------------------------
  // Recording activity

  /** `_check_achievements`: "first_steps" once anything is documented,
      "mind_reader" once something above complexity 15 is; nothing else. */
  function CheckAchievements(s: Stats, now: string): (r: Stats)
    ensures r.(achievements := s.achievements) == s
    ensures |r.achievements| == |s.achievements|
    ensures forall k :: 0 <= k < |r.achievements| ==> r.achievements[k].id == s.achievements[k].id
  {
    var afterFirst := if s.totalFunctionsDocumented >= 1 then Unlock(s.achievements, FirstSteps, now) else s.achievements;
    var afterMind := if s.highestComplexityDocumented > 15 then Unlock(afterFirst, MindReader, now) else afterFirst;
    s.(achievements := afterMind)
  }

  /** `record_documentation`: one more documented function, the highest
      complexity raised to `complexity` if that is higher, the activity stamped,
      then the achievements checked. The commit counter and streak are left alone. */
  function RecordDocumentation(s: Stats, complexity: int, now: string): (r: Stats)
    ensures r.totalFunctionsDocumented == s.totalFunctionsDocumented + 1
    ensures r.highestComplexityDocumented >= s.highestComplexityDocumented
    ensures r.highestComplexityDocumented >= complexity
    ensures r.highestComplexityDocumented == s.highestComplexityDocumented || r.highestComplexityDocumented == complexity
    ensures r.totalCommitsWithGuard == s.totalCommitsWithGuard && r.currentStreakDays == s.currentStreakDays
    ensures r.lastActivity == Some(now)
    ensures |r.achievements| == |s.achievements|
  {
    var counted := s.(totalFunctionsDocumented := s.totalFunctionsDocumented + 1,
                      highestComplexityDocumented := Max(s.highestComplexityDocumented, complexity),
                      lastActivity := Some(now));
    CheckAchievements(counted, now)
  }

  /** `record_commit`: one more commit and the activity stamped; the
      documentation counters, the streak and the achievements are unchanged. */
  function RecordCommit(s: Stats, now: string): (r: Stats)
    ensures r.totalCommitsWithGuard == s.totalCommitsWithGuard + 1
    ensures r.lastActivity == Some(now)
    ensures r.(totalCommitsWithGuard := s.totalCommitsWithGuard, lastActivity := s.lastActivity) == s
  {
    s.(totalCommitsWithGuard := s.totalCommitsWithGuard + 1, lastActivity := Some(now))
  }

  /** Documenting unlocks every "first_steps" achievement, provided the counter
      did not start negative (a stats file may hold any number). */
  lemma DocumentingUnlocksFirstSteps(s: Stats, complexity: int, now: string)
    requires s.totalFunctionsDocumented >= 0
    ensures var r := RecordDocumentation(s, complexity, now);
            forall k :: 0 <= k < |r.achievements| && r.achievements[k].id == FirstSteps ==> r.achievements[k].IsUnlocked()
  {
    var counted := s.(totalFunctionsDocumented := s.totalFunctionsDocumented + 1,
                      highestComplexityDocumented := Max(s.highestComplexityDocumented, complexity),
                      lastActivity := Some(now));
    var afterFirst := Unlock(s.achievements, FirstSteps, now);
    UnlockUnlocksEveryMatch(s.achievements, FirstSteps, now);
    if counted.highestComplexityDocumented > 15 {
      assert forall k :: 0 <= k < |afterFirst| && afterFirst[k].IsUnlocked() ==>
        Unlock(afterFirst, MindReader, now)[k] == afterFirst[k];
    }
  }

  /** Once the highest documented complexity exceeds 15, documenting unlocks
      every "mind_reader" achievement. */
  lemma ComplexWorkUnlocksMindReader(s: Stats, complexity: int, now: string)
    requires Max(s.highestComplexityDocumented, complexity) > 15
    ensures var r := RecordDocumentation(s, complexity, now);
            forall k :: 0 <= k < |r.achievements| && r.achievements[k].id == MindReader ==> r.achievements[k].IsUnlocked()
  {
    var afterFirst := if s.totalFunctionsDocumented + 1 >= 1 then Unlock(s.achievements, FirstSteps, now) else s.achievements;
    UnlockUnlocksEveryMatch(afterFirst, MindReader, now);
  }

  /** Documenting touches no achievement other than "first_steps" and "mind_reader". */
  lemma DocumentingTouchesOnlyTwoAchievements(s: Stats, complexity: int, now: string)
    ensures var r := RecordDocumentation(s, complexity, now);
            forall k :: 0 <= k < |r.achievements| && s.achievements[k].id != FirstSteps && s.achievements[k].id != MindReader ==>
              r.achievements[k] == s.achievements[k]
  {
  }

  /** An activity of the tracker. */
  datatype Activity = Documented(complexity: int, at: string) | Committed(at: string)

  /** The statistics after a run of activities, oldest first. */
  function Replay(s: Stats, activities: seq<Activity>): (r: Stats)
    ensures |r.achievements| == |s.achievements|
    decreases |activities|
  {
    if activities == [] then s
    else
      var next := match activities[0]
        case Documented(c, t) => RecordDocumentation(s, c, t)
        case Committed(t) => RecordCommit(s, t);
      Replay(next, activities[1..])
  }

  /** No run of activities ever changes an achievement other than
      "first_steps" and "mind_reader": "marksman", "speed_demon" and
      "perfectionist" stay as the stats file (or the catalogue) had them. */
  lemma {:induction false} OtherAchievementsNeverChange(s: Stats, activities: seq<Activity>, k: int)
    requires 0 <= k < |s.achievements|
    requires s.achievements[k].id != FirstSteps && s.achievements[k].id != MindReader
    ensures Replay(s, activities).achievements[k] == s.achievements[k]
    decreases |activities|
  {
    if activities != [] {
      var next := match activities[0]
        case Documented(c, t) => RecordDocumentation(s, c, t)
        case Committed(t) => RecordCommit(s, t);
      if activities[0].Documented? {
        DocumentingTouchesOnlyTwoAchievements(s, activities[0].complexity, activities[0].at);
      }
      assert next.achievements[k] == s.achievements[k];
      OtherAchievementsNeverChange(next, activities[1..], k);
    }
  }

  /** From a fresh tracker, "marksman", "speed_demon" and "perfectionist" are
      never unlocked, whatever is documented or committed. */
  lemma UnreachableAchievementsStayLocked(activities: seq<Activity>)
    ensures var r := Replay(FreshStats(), activities);
            forall k :: 1 <= k < |r.achievements| && k != 2 ==> !r.achievements[k].IsUnlocked()
  {
    var s := FreshStats();
    assert s.achievements == Catalogue;
    OtherAchievementsNeverChange(s, activities, 1);
    OtherAchievementsNeverChange(s, activities, 3);
    OtherAchievementsNeverChange(s, activities, 4);
  }

  /** The documentation counter only grows, by one per documented function, and
      the highest documented complexity never falls. */
  lemma {:induction false} ReplayCounts(s: Stats, activities: seq<Activity>)
    ensures var r := Replay(s, activities);
            r.totalFunctionsDocumented == s.totalFunctionsDocumented + DocumentedCount(activities) &&
            r.totalCommitsWithGuard == s.totalCommitsWithGuard + |activities| - DocumentedCount(activities) &&
            r.highestComplexityDocumented >= s.highestComplexityDocumented
    decreases |activities|
  {
    if activities != [] {
      var next := match activities[0]
        case Documented(c, t) => RecordDocumentation(s, c, t)
        case Committed(t) => RecordCommit(s, t);
      ReplayCounts(next, activities[1..]);
    }
  }

  function DocumentedCount(activities: seq<Activity>): (n: nat)
    ensures n <= |activities|
  {
    if activities == [] then 0
    else (if activities[0].Documented? then 1 else 0) + DocumentedCount(activities[1..])
  }

  // ---------------------------------------------------------------------------
  // The catalogue shared between trackers

  /** A tracker that finds no stats file starts from a copy of the class-wide
      catalogue. The copy is shallow: the new list holds the catalogue's own
      achievement objects, so unlocking one in the tracker unlocks it in the
      catalogue too. As written, documenting in such a tracker therefore
      returns the catalogue every later fresh tracker in the process starts
      from, alongside the tracker's statistics. */
  function DocumentInFreshTrackerAsWritten(catalogue: seq<Achievement>, complexity: int, now: string)
    : (r: (seq<Achievement>, Stats))
    ensures r.1.totalFunctionsDocumented == 1
    ensures |r.0| == |catalogue|
  {
    var stats := RecordDocumentation(Stats(0, 0, 0, 0, catalogue, None), complexity, now);
    (stats.achievements, stats)
  }

  /** The consequence: after one tracker documents a function, the next tracker
      that starts without a stats file (another working directory, say) has
      documented nothing yet already holds "first_steps". */
  lemma SharedCatalogueLeaksUnlocks(complexity: int, now: string)
    ensures var later := DocumentInFreshTrackerAsWritten(Catalogue, complexity, now).0;
            var next := Stats(0, 0, 0, 0, later, None);
            next.totalFunctionsDocumented == 0 && next.achievements[0].id == FirstSteps && next.achievements[0].IsUnlocked()
  {
    DocumentingUnlocksFirstSteps(Stats(0, 0, 0, 0, Catalogue, None), complexity, now);
  }

  /** The evident intent, with a copy of its own for each tracker: the catalogue
      is left as it was, and the next fresh tracker starts with nothing unlocked. */
  function DocumentInFreshTracker(catalogue: seq<Achievement>, complexity: int, now: string)
    : (r: (seq<Achievement>, Stats))
    ensures r.0 == catalogue
    ensures r.1.totalFunctionsDocumented == 1
  {
    (catalogue, RecordDocumentation(Stats(0, 0, 0, 0, catalogue, None), complexity, now))
  }

  lemma FreshTrackersStayIndependent(complexity: int, now: string)
    ensures var later := DocumentInFreshTracker(FreshStats().achievements, complexity, now).0;
            Stats(0, 0, 0, 0, later, None) == FreshStats()
            && forall k :: 0 <= k < |later| ==> !later[k].IsUnlocked()
  {
  }

  // ---------------------------------------------------------------------------
  // The stats file's JSON form

  /** The JSON values `json.dump` writes and `json.load` reads back. */
  datatype Json = JNull | JInt(i: int) | JStr(s: string) | JList(items: seq<Json>) | JObject(fields: map<string, Json>)

  function OptionalString(o: Option<string>): Json
  {
    match o
    case None => JNull
    case Some(t) => JStr(t)
  }

  function AchievementToJson(a: Achievement): Json
  {
    JObject(map["id" := JStr(a.id), "name" := JStr(a.name), "description" := JStr(a.description),
                "icon" := JStr(a.icon), "unlocked_at" := OptionalString(a.unlockedAt)])
  }

  function AchievementsToJson(achievements: seq<Achievement>): (r: seq<Json>)
    ensures |r| == |achievements|
    ensures forall k :: 0 <= k < |r| ==> r[k] == AchievementToJson(achievements[k])
  {
    if achievements == [] then [] else [AchievementToJson(achievements[0])] + AchievementsToJson(achievements[1..])
  }

  const StatsKeys: set<string> := {"total_functions_documented", "total_commits_with_guard",
    "highest_complexity_documented", "current_streak_days", "achievements", "last_activity"}

  /** `Stats.to_dict`: the six fields under their names, each achievement as
      an object of its five fields, absent times as null. */
  function ToDict(s: Stats): (d: map<string, Json>)
    ensures d.Keys == StatsKeys
    ensures d["achievements"].JList? && |d["achievements"].items| == |s.achievements|
  {
    map["total_functions_documented" := JInt(s.totalFunctionsDocumented),
        "total_commits_with_guard" := JInt(s.totalCommitsWithGuard),
        "highest_complexity_documented" := JInt(s.highestComplexityDocumented),
        "current_streak_days" := JInt(s.currentStreakDays),
        "achievements" := JList(AchievementsToJson(s.achievements)),
        "last_activity" := OptionalString(s.lastActivity)]
  }

  /** `data.get(key, 0)` for a counter. */
  function CounterField(d: map<string, Json>, key: string): Option<int>
  {
    if key !in d then Some(0)
    else match d[key]
      case JInt(i) => Some(i)
      case _ => None
  }

  /** A string, or null standing for no value. */
  function OptionalField(j: Json): Option<Option<string>>
  {
    match j
    case JNull => Some(None)
    case JStr(t) => Some(Some(t))
    case _ => None
  }

  function StringField(f: map<string, Json>, key: string): Option<string>
  {
    if key in f && f[key].JStr? then Some(f[key].s) else None
  }

  const AchievementKeys: set<string> := {"id", "name", "description", "icon", "unlocked_at"}

  /** `Achievement(**a)`: the four text fields must be present, "unlocked_at"
      may be missing (no time), and any other key is refused. */
  function AchievementFromJson(j: Json): (r: Option<Achievement>)
    ensures r.Some? ==> j.JObject? && j.fields.Keys <= AchievementKeys
    ensures r.Some? ==> forall key :: key in AchievementKeys - {"unlocked_at"} ==> key in j.fields
  {
    if !j.JObject? || !(j.fields.Keys <= AchievementKeys) then None
    else
      var f := j.fields;
      var at := if "unlocked_at" in f then OptionalField(f["unlocked_at"]) else Some(None);
      match (StringField(f, "id"), StringField(f, "name"), StringField(f, "description"), StringField(f, "icon"), at)
      case (Some(id), Some(name), Some(description), Some(icon), Some(t)) =>
        Some(Achievement(id, name, description, icon, t))
      case _ => None
  }

  function AchievementsFromJson(items: seq<Json>): (r: Option<seq<Achievement>>)
    ensures r.Some? ==> |r.value| == |items|
  {
    if items == [] then Some([])
    else
      match (AchievementFromJson(items[0]), AchievementsFromJson(items[1..]))
      case (Some(a), Some(rest)) => Some([a] + rest)
      case _ => None
  }

  /** `Stats.from_dict`: missing counters are 0, a missing achievement list is
      empty, a missing activity is none; keys it does not know are ignored.
      `None` where Python would raise (a malformed achievement), and also where
      a value has the wrong JSON type. */
  function FromDict(d: map<string, Json>): (r: Option<Stats>)
    ensures r.Some? ==> "achievements" in d ==> d["achievements"].JList? && |r.value.achievements| == |d["achievements"].items|
  {
    var achievements := if "achievements" !in d then Some([])
                        else if d["achievements"].JList? then AchievementsFromJson(d["achievements"].items)
                        else None;
    var last := if "last_activity" in d then OptionalField(d["last_activity"]) else Some(None);
    match (CounterField(d, "total_functions_documented"), CounterField(d, "total_commits_with_guard"),
           CounterField(d, "highest_complexity_documented"), CounterField(d, "current_streak_days"),
           achievements, last)
    case (Some(a), Some(b), Some(c), Some(e), Some(list), Some(t)) => Some(Stats(a, b, c, e, list, t))
    case _ => None
  }

  lemma AchievementRoundTrip(a: Achievement)
    ensures AchievementFromJson(AchievementToJson(a)) == Some(a)
  {
    var f := AchievementToJson(a).fields;
    assert f.Keys == AchievementKeys;
    match a.unlockedAt
    case None =>
    case Some(t) =>
  }

  lemma {:induction false} AchievementsRoundTrip(achievements: seq<Achievement>)
    ensures AchievementsFromJson(AchievementsToJson(achievements)) == Some(achievements)
  {
    if achievements != [] {
      var js := AchievementsToJson(achievements);
      AchievementRoundTrip(achievements[0]);
      AchievementsRoundTrip(achievements[1..]);
      assert js[0] == AchievementToJson(achievements[0]);
      assert js[1..] == AchievementsToJson(achievements[1..]);
      assert achievements == [achievements[0]] + achievements[1..];
    }
  }

  /** Saving and loading gives the same statistics back. */
  lemma FromDictInvertsToDict(s: Stats)
    ensures FromDict(ToDict(s)) == Some(s)
  {
    AchievementsRoundTrip(s.achievements);
    match s.lastActivity
    case None =>
    case Some(t) =>
  }

  /** A stats file holding none of the six keys loads as zero counters, no
      achievements and no activity. */
  lemma MissingKeysTakeDefaults(d: map<string, Json>)
    requires d.Keys !! StatsKeys
    ensures FromDict(d) == Some(Stats(0, 0, 0, 0, [], None))
  {
    assert "total_functions_documented" !in d && "total_commits_with_guard" !in d;
    assert "highest_complexity_documented" !in d && "current_streak_days" !in d;
    assert "achievements" !in d && "last_activity" !in d;
  }

  /** An achievement object without its id is refused, as `Achievement(**a)` raises. */
  lemma AchievementNeedsId(f: map<string, Json>)
    requires "id" !in f
    ensures AchievementFromJson(JObject(f)) == None
  {
  }
}
