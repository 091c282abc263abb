/**
 * The records of the scheduling problem: contributors (workers), their skills,
 * projects with their ordered skill requirements, and committed assignments.
 * Contributors are kept in one arena (a sequence) and everything else refers
 * to them by their index in it.
 */
module Domain {
  import opened Wrappers

  type SkillName = string

  /** One entry of a contributor's skill list; the level rises as projects are completed. */
  datatype Skill = Skill(name: SkillName, level: int)

  datatype Contributor = Contributor(name: string, skills: seq<Skill>, dayAvailable: int)

  datatype SkillRequirement = SkillRequirement(skillName: SkillName, minLevel: int)

  datatype Project = Project(
    name: string,
    duration: int,
    score: int,
    bestBefore: int,
    requiredSkills: seq<SkillRequirement>)

  /**
   * A candidate or committed team: `project` is the index of the project and
   * `contributors[i]` the arena index of the contributor filling requirement slot i.
   */
  datatype Assignment = Assignment(project: nat, contributors: seq<nat>, effectiveScore: int)

  /** A novice (arena index) together with the team slot of the teammate who mentors it. */
  datatype Duo = Duo(noob: nat, mentorIndex: nat)

  /** A contributor lists every skill at most once. */
  predicate UniqueSkillNames(skills: seq<Skill>) {
    forall i, j :: 0 <= i < j < |skills| ==> skills[i].name != skills[j].name
  }

  predicate WellFormedPeople(people: seq<Contributor>) {
    forall id :: 0 <= id < |people| ==> UniqueSkillNames(people[id].skills)
  }

  /** The level at which `skills` holds skill `s` (the source's getSkill), None if it does not hold it. */
  function LevelIn(skills: seq<Skill>, s: SkillName): Option<int> {
    if |skills| == 0 then None
    else if skills[0].name == s then Some(skills[0].level)
    else LevelIn(skills[1..], s)
  }

  /** The lookup fails exactly when no entry carries the name, and otherwise reports an entry's level. */
  lemma {:induction false} LevelInFound(skills: seq<Skill>, s: SkillName)
    ensures LevelIn(skills, s).None? <==> forall j :: 0 <= j < |skills| ==> skills[j].name != s
    ensures LevelIn(skills, s).Some? ==> exists j :: 0 <= j < |skills| && skills[j] == Skill(s, LevelIn(skills, s).value)
  {
    if |skills| > 0 && skills[0].name != s {
      LevelInFound(skills[1..], s);
      if LevelIn(skills, s).Some? {
        var j :| 0 <= j < |skills[1..]| && skills[1..][j] == Skill(s, LevelIn(skills, s).value);
        assert skills[j + 1] == skills[1..][j];
      }
    }
  }

  /** With distinct skill names, the entry named `s` at position j determines the level. */
  lemma {:induction false} LevelInAt(skills: seq<Skill>, j: nat)
    requires UniqueSkillNames(skills) && j < |skills|
    ensures LevelIn(skills, skills[j].name) == Some(skills[j].level)
  {
    if j > 0 {
      assert skills[0].name != skills[j].name;
      LevelInAt(skills[1..], j - 1);
    }
  }

  /** The mentor test of the source: some skill entry named `s` at `minLevel` or above. */
  predicate HoldsAtLeast(skills: seq<Skill>, s: SkillName, minLevel: int) {
    exists j | 0 <= j < |skills| :: skills[j].name == s && skills[j].level >= minLevel
  }

  lemma HoldsAtLeastIff(skills: seq<Skill>, s: SkillName, minLevel: int)
    requires UniqueSkillNames(skills)
    ensures HoldsAtLeast(skills, s, minLevel) <==> LevelIn(skills, s).Some? && LevelIn(skills, s).value >= minLevel
  {
    if HoldsAtLeast(skills, s, minLevel) {
      var j :| 0 <= j < |skills| && skills[j].name == s && skills[j].level >= minLevel;
      LevelInAt(skills, j);
    }
  }

  /** Every entry named `s` gets level `v`; the other entries are kept. */
  function SetLevel(skills: seq<Skill>, s: SkillName, v: int): (r: seq<Skill>)
    ensures |r| == |skills|
    ensures forall j :: 0 <= j < |r| ==> r[j].name == skills[j].name
    ensures forall j :: 0 <= j < |r| ==> r[j].level == if skills[j].name == s then v else skills[j].level
  {
    if |skills| == 0 then []
    else [if skills[0].name == s then Skill(s, v) else skills[0]] + SetLevel(skills[1..], s, v)
  }

  lemma {:induction false} LevelInSetLevel(skills: seq<Skill>, s: SkillName, v: int, t: SkillName)
    ensures LevelIn(SetLevel(skills, s, v), t)
         == if t == s && LevelIn(skills, s).Some? then Some(v) else LevelIn(skills, t)
  {
    if |skills| > 0 {
      LevelInSetLevel(skills[1..], s, v, t);
      assert SetLevel(skills, s, v)[1..] == SetLevel(skills[1..], s, v);
    }
  }

  /** The ranking key of sortMostInterestingFirst: skill count times availability day. */
  function Rank(c: Contributor): int {
    |c.skills| * c.dayAvailable
  }

  /** Ranking key over arena indices (ids outside the arena never occur in a valid index). */
  function RankKey(people: seq<Contributor>): nat -> int {
    (id: nat) => if id < |people| then Rank(people[id]) else 0
  }

  predicate ValidIds(people: seq<Contributor>, ids: seq<nat>) {
    forall k :: 0 <= k < |ids| ==> ids[k] < |people|
  }

  /** The latest availability day over a team (the source's maxOf { it.dayAvailable }). */
  function MaxDay(people: seq<Contributor>, team: seq<nat>): (r: int)
    requires |team| > 0 && ValidIds(people, team)
    ensures forall k :: 0 <= k < |team| ==> people[team[k]].dayAvailable <= r
    ensures exists k :: 0 <= k < |team| && people[team[k]].dayAvailable == r
  {
    if |team| == 1 then people[team[0]].dayAvailable
    else
      var rest := MaxDay(people, team[1..]);
      assert forall k :: 1 <= k < |team| ==> team[k] == team[1..][k - 1];
      if people[team[0]].dayAvailable >= rest then people[team[0]].dayAvailable else rest
  }
}
