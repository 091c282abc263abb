/**
 * Choosing contributors for one skill requirement: the direct matcher
 * (findBestContributorFor) and the novice/mentor pairing (findMentoreeFor,
 * findIndexOfMentorFor). These read the skill index and the arena and change
 * nothing.
 */
module Matcher {
  import opened Wrappers
  import opened Domain
  import opened SkillIndex

  /** Position of the first member not taken yet, None when all are taken. */
  function FirstUntaken(members: seq<nat>, taken: set<nat>): (r: Option<nat>)
    ensures r.Some? ==> r.value < |members| && members[r.value] !in taken
    ensures r.Some? ==> forall k :: 0 <= k < r.value ==> members[k] in taken
    ensures r.None? ==> forall k :: 0 <= k < |members| ==> members[k] in taken
  {
    if |members| == 0 then None
    else if members[0] !in taken then Some(0)
    else match FirstUntaken(members[1..], taken)
      case None => None
      case Some(k) => Some(k + 1)
  }

  /** Every contributor in the buckets at `minLevel` or above that lie before position `upto` is taken. */
  ghost predicate ExhaustedBelow(levels: Levels, minLevel: int, taken: set<nat>, upto: nat) {
    forall p, k :: 0 <= p < upto && p < |levels| && levels[p].level >= minLevel && 0 <= k < |levels[p].members| ==>
      levels[p].members[k] in taken
  }

  /**
   * What the direct matcher's scan keeps: the buckets before position `next`
   * lie below `levelToFind`, the rest at or above it, and every contributor
   * in the buckets passed over at `minLevel` or above is taken.
   */
  ghost predicate ScanState(levels: Levels, minLevel: int, taken: set<nat>, levelToFind: int, next: nat) {
    next <= |levels| && levelToFind >= minLevel &&
    (forall p :: 0 <= p < next ==> levels[p].level < levelToFind) &&
    (forall p :: next <= p < |levels| ==> levels[p].level >= levelToFind) &&
    ExhaustedBelow(levels, minLevel, taken, next)
  }

  /** The scan starts at the ceiling of `minLevel`. */
  lemma ScanStart(levels: Levels, minLevel: int, taken: set<nat>)
    requires Ascending(levels)
    ensures ScanState(levels, minLevel, taken, minLevel,
                      match Ceiling(levels, minLevel) case None => |levels| case Some(p) => p)
  {
  }

  /** The ceiling lookup lands on `next`, and finds nothing exactly when the scan has passed every bucket. */
  lemma ScanAt(levels: Levels, minLevel: int, taken: set<nat>, levelToFind: int, next: nat)
    requires Ascending(levels) && ScanState(levels, minLevel, taken, levelToFind, next)
    ensures Ceiling(levels, levelToFind).None? <==> next == |levels|
    ensures Ceiling(levels, levelToFind).Some? ==> Ceiling(levels, levelToFind).value == next
  {
    if next < |levels| {
      assert levels[next].level >= levelToFind;
    }
  }

  /** A bucket whose members are all taken is passed over. */
  lemma ScanSkip(levels: Levels, minLevel: int, taken: set<nat>, levelToFind: int, next: nat)
    requires Ascending(levels) && ScanState(levels, minLevel, taken, levelToFind, next) && next < |levels|
    requires FirstUntaken(levels[next].members, taken).None?
    ensures ScanState(levels, minLevel, taken, levels[next].level + 1, next + 1)
  {
    forall p | next + 1 <= p < |levels| ensures levels[p].level >= levels[next].level + 1 {
      assert levels[next].level < levels[p].level;
    }
  }

  /** A contributor found in a bucket at or above `minLevel` knows the skill at that bucket's level. */
  lemma ScanFound(idx: Index, people: seq<Contributor>, s: SkillName, minLevel: int, pos: nat, k: nat)
    requires WellFormedIndex(idx) && pos < |Table(idx, s)| && Table(idx, s)[pos].level >= minLevel
    requires k < |Table(idx, s)[pos].members|
    ensures Consistent(idx, people) ==>
      var id := Table(idx, s)[pos].members[k];
      id < |people| && LevelIn(people[id].skills, s).Some? && LevelIn(people[id].skills, s).value >= minLevel
  {
    var levels := Table(idx, s);
    var id := levels[pos].members[k];
    TableWellFormed(idx, s);
    MembersAt(levels, pos);
    assert id in MembersOf(idx, s, levels[pos].level);
  }

  /**
   * The direct match from bucket `p` on: the first untaken member of the
   * first bucket at `minLevel` or above that still has one.
   */
  function DirectMatchFrom(levels: Levels, minLevel: int, taken: set<nat>, p: nat): (r: Option<nat>)
    ensures r.Some? ==> r.value !in taken
    decreases |levels| - p
  {
    if p >= |levels| then None
    else if levels[p].level >= minLevel && FirstUntaken(levels[p].members, taken).Some? then
      Some(levels[p].members[FirstUntaken(levels[p].members, taken).value])
    else DirectMatchFrom(levels, minLevel, taken, p + 1)
  }

  /** The contributor the direct matcher returns for `req` with `taken` in use. */
  function DirectMatch(idx: Index, req: SkillRequirement, taken: set<nat>): Option<nat> {
    DirectMatchFrom(Table(idx, req.skillName), req.minLevel, taken, 0)
  }

  /** Buckets whose qualifying members are all taken add nothing to the direct match. */
  lemma {:induction false} DirectMatchSkip(levels: Levels, minLevel: int, taken: set<nat>, from: nat, upto: nat)
    requires from <= upto <= |levels| && ExhaustedBelow(levels, minLevel, taken, upto)
    ensures DirectMatchFrom(levels, minLevel, taken, from) == DirectMatchFrom(levels, minLevel, taken, upto)
    decreases upto - from
  {
    if from < upto {
      assert levels[from].level >= minLevel ==>
        forall k :: 0 <= k < |levels[from].members| ==> levels[from].members[k] in taken;
      DirectMatchSkip(levels, minLevel, taken, from + 1, upto);
    }
  }

  /**
   * The direct matcher: scans the buckets of the requirement's skill upward
   * from `minLevel` by repeated ceiling lookups and returns the first untaken
   * contributor of the lowest bucket that has one. Availability plays no part.
   */
  method FindBestContributorFor(idx: Index, ghost people: seq<Contributor>, req: SkillRequirement, taken: set<nat>)
    returns (r: Option<nat>)
    requires WellFormedIndex(idx)
    ensures r == DirectMatch(idx, req, taken)
    ensures r.None? <==> ExhaustedBelow(Table(idx, req.skillName), req.minLevel, taken, |Table(idx, req.skillName)|)
    ensures r.Some? ==>
      var levels := Table(idx, req.skillName);
      exists p :: 0 <= p < |levels| && levels[p].level >= req.minLevel && ExhaustedBelow(levels, req.minLevel, taken, p) &&
        FirstUntaken(levels[p].members, taken).Some? &&
        r.value == levels[p].members[FirstUntaken(levels[p].members, taken).value]
    ensures r.Some? ==> r.value !in taken
    ensures r.Some? && Consistent(idx, people) ==>
      r.value < |people| && LevelIn(people[r.value].skills, req.skillName).Some? &&
      LevelIn(people[r.value].skills, req.skillName).value >= req.minLevel
  {
    var levels := Table(idx, req.skillName);
    TableWellFormed(idx, req.skillName);
    var levelToFind := req.minLevel;
    ghost var next: nat := match Ceiling(levels, levelToFind) case None => |levels| case Some(p) => p;
    ScanStart(levels, req.minLevel, taken);
    while true
      invariant ScanState(levels, req.minLevel, taken, levelToFind, next)
      decreases |levels| - next
    {
      ScanAt(levels, req.minLevel, taken, levelToFind, next);
      var entry := Ceiling(levels, levelToFind);
      if entry.None? {
        DirectMatchSkip(levels, req.minLevel, taken, 0, next);
        return None;
      }
      var pos := entry.value;
      var found := FirstUntaken(levels[pos].members, taken);
      if found.Some? {
        r := Some(levels[pos].members[found.value]);
        ScanFound(idx, people, req.skillName, req.minLevel, pos, found.value);
        assert ExhaustedBelow(levels, req.minLevel, taken, pos);
        DirectMatchSkip(levels, req.minLevel, taken, 0, pos);
        return;
      }
      ScanSkip(levels, req.minLevel, taken, levelToFind, next);
      levelToFind := levels[pos].level + 1;
      next := pos + 1;
    }
  }

  /** Slot `slot` holds a contributor with the requirement's skill at `minLevel` or above. */
  predicate IsMentor(people: seq<Contributor>, slot: Option<nat>, req: SkillRequirement) {
    slot.Some? && slot.value < |people| && HoldsAtLeast(people[slot.value].skills, req.skillName, req.minLevel)
  }

  /** The lowest team position holding a possible mentor for `req`, or -1 (the source's indexOfFirst). */
  function FindIndexOfMentorFor(team: seq<Option<nat>>, people: seq<Contributor>, req: SkillRequirement): (r: int)
    ensures -1 <= r < |team|
    ensures r >= 0 ==> IsMentor(people, team[r], req)
    ensures r >= 0 ==> forall k :: 0 <= k < r ==> !IsMentor(people, team[k], req)
    ensures r == -1 ==> forall k :: 0 <= k < |team| ==> !IsMentor(people, team[k], req)
  {
    if |team| == 0 then -1
    else if IsMentor(people, team[0], req) then 0
    else
      var rest := FindIndexOfMentorFor(team[1..], people, req);
      if rest < 0 then -1 else rest + 1
  }

  /**
   * A novice for `req` together with a mentor: the novice is the first untaken
   * contributor in the bucket exactly one level below the requirement, the
   * mentor the first team slot that meets the requirement. None when either
   * is missing (an unknown skill or level gives an empty bucket).
   */
  function FindMentoreeFor(idx: Index, people: seq<Contributor>, req: SkillRequirement,
                           team: seq<Option<nat>>, taken: set<nat>): (r: Option<Duo>)
    ensures r.Some? ==> r.value.noob !in taken
    ensures r.Some? ==> r.value.mentorIndex < |team| && IsMentor(people, team[r.value.mentorIndex], req)
  {
    var noobs := MembersOf(idx, req.skillName, req.minLevel - 1);
    match FirstUntaken(noobs, taken)
    case None => None
    case Some(k) =>
      var mentorIndex := FindIndexOfMentorFor(team, people, req);
      if mentorIndex < 0 then None else Some(Duo(noobs[k], mentorIndex))
  }

  /**
   * No duo exactly when every contributor one level below is taken or no
   * teammate qualifies; otherwise the novice is the first untaken one of that
   * bucket and the mentor the first qualifying slot.
   */
  lemma FindMentoreeForSpec(idx: Index, people: seq<Contributor>, req: SkillRequirement,
                            team: seq<Option<nat>>, taken: set<nat>)
    ensures var noobs := MembersOf(idx, req.skillName, req.minLevel - 1);
      var r := FindMentoreeFor(idx, people, req, team, taken);
      (r.None? <==> (forall k :: 0 <= k < |noobs| ==> noobs[k] in taken) ||
                    (forall i :: 0 <= i < |team| ==> !IsMentor(people, team[i], req))) &&
      (r.Some? ==> exists k :: 0 <= k < |noobs| && noobs[k] == r.value.noob &&
                     forall k' :: 0 <= k' < k ==> noobs[k'] in taken) &&
      (r.Some? ==> forall i :: 0 <= i < r.value.mentorIndex ==> !IsMentor(people, team[i], req))
  {
    var noobs := MembersOf(idx, req.skillName, req.minLevel - 1);
    var first := FirstUntaken(noobs, taken);
    var mentorIndex := FindIndexOfMentorFor(team, people, req);
    if first.Some? && mentorIndex >= 0 {
      assert noobs[first.value] !in taken;
      assert IsMentor(people, team[mentorIndex], req);
    }
  }

  /** In a consistent index the novice found knows the skill exactly one level below the requirement. */
  lemma MentoreeIsNovice(idx: Index, people: seq<Contributor>, req: SkillRequirement,
                         team: seq<Option<nat>>, taken: set<nat>)
    requires Consistent(idx, people) && FindMentoreeFor(idx, people, req, team, taken).Some?
    ensures HasLevel(people, FindMentoreeFor(idx, people, req, team, taken).value.noob, req.skillName, req.minLevel - 1)
  {
    var noobs := MembersOf(idx, req.skillName, req.minLevel - 1);
    var k := FirstUntaken(noobs, taken).value;
    assert noobs[k] in noobs;
  }

  /** A novice is never its own mentor: it sits one level below what the mentor holds. */
  lemma NoobIsNotMentor(idx: Index, people: seq<Contributor>, req: SkillRequirement,
                        team: seq<Option<nat>>, taken: set<nat>)
    requires WellFormedPeople(people) && Consistent(idx, people)
    requires FindMentoreeFor(idx, people, req, team, taken).Some?
    ensures var d := FindMentoreeFor(idx, people, req, team, taken).value;
            team[d.mentorIndex] != Some(d.noob)
  {
    var d := FindMentoreeFor(idx, people, req, team, taken).value;
    var noob := d.noob;
    MentoreeIsNovice(idx, people, req, team, taken);
    if team[d.mentorIndex] == Some(noob) {
      HoldsAtLeastIff(people[noob].skills, req.skillName, req.minLevel);
    }
  }
}
