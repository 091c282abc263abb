/**
 * Building a candidate team for one project (findBestAssignmentFor): a direct
 * match per requirement, then hole filling with mentored novices, then
 * replacement of over-qualified members by mentored novices, then the score.
 * The team under construction and the set of taken contributors are local to
 * one evaluation; they are passed in and returned as values.
 */
module Assigner {
  import opened Wrappers
  import opened Domain
  import opened Ranking
  import opened SkillIndex
  import opened Matcher

  /** The contributors placed in the filled slots of a team. */
  function Ids(team: seq<Option<nat>>): set<nat> {
    set i | 0 <= i < |team| && team[i].Some? :: team[i].value
  }

  /** No contributor fills two slots. */
  predicate DistinctSlots(team: seq<Option<nat>>) {
    forall i, j :: 0 <= i < |team| && 0 <= j < |team| && i != j && team[i].Some? && team[j].Some? ==>
      team[i].value != team[j].value
  }

  /** The taken set is exactly the team's contributors, each placed once, all in the arena. */
  predicate TeamState(team: seq<Option<nat>>, taken: set<nat>, people: seq<Contributor>) {
    taken == Ids(team) && DistinctSlots(team) &&
    forall i :: 0 <= i < |team| && team[i].Some? ==> team[i].value < |people|
  }

  /** Holds the requirement's skill at its minimum level or above. */
  predicate Qualified(people: seq<Contributor>, id: nat, req: SkillRequirement) {
    id < |people| && LevelIn(people[id].skills, req.skillName).Some? &&
    LevelIn(people[id].skills, req.skillName).value >= req.minLevel
  }

  /** Holds the requirement's skill exactly one level below its minimum. */
  predicate Novice(people: seq<Contributor>, id: nat, req: SkillRequirement) {
    HasLevel(people, id, req.skillName, req.minLevel - 1)
  }

  lemma IdsAppend(team: seq<Option<nat>>, c: Option<nat>)
    ensures Ids(team + [c]) == Ids(team) + (if c.Some? then {c.value} else {})
  {
    var t := team + [c];
    forall x | x in Ids(t) ensures x in Ids(team) + (if c.Some? then {c.value} else {}) {
      var i :| 0 <= i < |t| && t[i].Some? && t[i].value == x;
      if i < |team| { assert team[i] == t[i]; }
    }
    forall x | x in Ids(team) ensures x in Ids(t) {
      var i :| 0 <= i < |team| && team[i].Some? && team[i].value == x;
      assert t[i] == team[i];
    }
    if c.Some? { assert t[|team|] == c; }
  }

  /** Putting a contributor not yet on the team into slot `h`, replacing whoever was there. */
  lemma IdsPut(team: seq<Option<nat>>, h: nat, n: nat)
    requires h < |team| && DistinctSlots(team) && n !in Ids(team)
    ensures DistinctSlots(team[h := Some(n)])
    ensures Ids(team[h := Some(n)]) == (if team[h].Some? then Ids(team) - {team[h].value} else Ids(team)) + {n}
  {
    var t := team[h := Some(n)];
    forall i, j | 0 <= i < |t| && 0 <= j < |t| && i != j && t[i].Some? && t[j].Some?
      ensures t[i].value != t[j].value
    {
      if i == h { assert team[j].value in Ids(team); }
      else if j == h { assert team[i].value in Ids(team); }
    }
    var expected := (if team[h].Some? then Ids(team) - {team[h].value} else Ids(team)) + {n};
    forall x | x in Ids(t) ensures x in expected {
      var i :| 0 <= i < |t| && t[i].Some? && t[i].value == x;
      if i != h { assert team[i] == t[i]; }
    }
    forall x | x in expected ensures x in Ids(t) {
      if x == n { assert t[h] == Some(n); }
      else {
        var i :| 0 <= i < |team| && team[i].Some? && team[i].value == x;
        assert i != h;
        assert t[i] == team[i];
      }
    }
  }

  /** Every filled slot meets its requirement; an empty slot's qualified contributors all fill earlier slots. */
  ghost predicate MatchedGreedily(people: seq<Contributor>, reqs: seq<SkillRequirement>, team: seq<Option<nat>>)
    requires |team| == |reqs|
  {
    (forall i :: 0 <= i < |team| && team[i].Some? ==> Qualified(people, team[i].value, reqs[i])) &&
    (forall i, id: nat :: 0 <= i < |team| && team[i].None? && Qualified(people, id, reqs[i]) ==>
       id in Ids(team[..i]))
  }

  /** Appending the direct match (or a hole when every qualified contributor is taken) keeps the first pass's facts. */
  lemma InitialStep(people: seq<Contributor>, reqs: seq<SkillRequirement>, team: seq<Option<nat>>, taken: set<nat>,
                    c: Option<nat>)
    requires |team| < |reqs| && TeamState(team, taken, people) && MatchedGreedily(people, reqs[..|team|], team)
    requires c.Some? ==> c.value !in taken && Qualified(people, c.value, reqs[|team|])
    requires c.None? ==> forall id: nat :: Qualified(people, id, reqs[|team|]) ==> id in taken
    ensures var taken' := if c.Some? then taken + {c.value} else taken;
      TeamState(team + [c], taken', people) && MatchedGreedily(people, reqs[..|team| + 1], team + [c])
  {
    var i := |team|;
    var t := team + [c];
    IdsAppend(team, c);
    if c.Some? {
      forall k | 0 <= k < |team| && team[k].Some? ensures team[k].value != c.value {
        assert team[k].value in Ids(team);
      }
    }
    assert t[..i] == team;
    forall k | 0 <= k < i ensures t[..k] == team[..k] { }
    assert reqs[..i + 1][..i] == reqs[..i];
  }

  /** The first pass over the first `n` requirements: each gets its direct match among the contributors not chosen before it. */
  function FirstPass(idx: Index, reqs: seq<SkillRequirement>, n: nat): (r: seq<Option<nat>>)
    requires n <= |reqs|
    ensures |r| == n
  {
    if n == 0 then []
    else
      var prev := FirstPass(idx, reqs, n - 1);
      prev + [DirectMatch(idx, reqs[n - 1], Ids(prev))]
  }

  /** A shorter first pass is a prefix of a longer one. */
  lemma {:induction false} FirstPassPrefix(idx: Index, reqs: seq<SkillRequirement>, n: nat, i: nat)
    requires i <= n <= |reqs|
    ensures FirstPass(idx, reqs, n)[..i] == FirstPass(idx, reqs, i)
    decreases n
  {
    if i < n {
      FirstPassPrefix(idx, reqs, n - 1, i);
      assert FirstPass(idx, reqs, n)[..i] == FirstPass(idx, reqs, n - 1)[..i];
    }
  }

  /** Slot `i` of the first pass holds the direct match for requirement `i` given the slots before it. */
  lemma FirstPassSlot(idx: Index, reqs: seq<SkillRequirement>, i: nat)
    requires i < |reqs|
    ensures var team := FirstPass(idx, reqs, |reqs|);
      team[i] == DirectMatch(idx, reqs[i], Ids(team[..i]))
  {
    var team := FirstPass(idx, reqs, |reqs|);
    FirstPassPrefix(idx, reqs, |reqs|, i + 1);
    FirstPassPrefix(idx, reqs, |reqs|, i);
    assert team[..i + 1] == team[..i] + [team[i]];
  }

  /**
   * The first pass (the mapTo over requiredSkills): each requirement in order
   * gets the direct match for it, avoiding the contributors already chosen,
   * or stays a hole.
   */
  method InitialTeam(idx: Index, ghost people: seq<Contributor>, reqs: seq<SkillRequirement>)
    returns (team: seq<Option<nat>>, taken: set<nat>)
    requires WellFormedIndex(idx) && Consistent(idx, people)
    ensures team == FirstPass(idx, reqs, |reqs|)
    ensures forall i :: 0 <= i < |reqs| ==> team[i] == DirectMatch(idx, reqs[i], Ids(team[..i]))
    ensures |team| == |reqs| && TeamState(team, taken, people) && MatchedGreedily(people, reqs, team)
  {
    team, taken := [], {};
    for i := 0 to |reqs|
      invariant |team| == i && TeamState(team, taken, people) && MatchedGreedily(people, reqs[..i], team)
      invariant team == FirstPass(idx, reqs, i)
    {
      var c := FindBestContributorFor(idx, people, reqs[i], taken);
      if c.None? {
        forall id: nat | Qualified(people, id, reqs[i]) ensures id in taken {
          QualifiedIsExhausted(idx, people, reqs[i], taken, id);
        }
      }
      InitialStep(people, reqs, team, taken, c);
      if c.Some? {
        taken := taken + {c.value};
      }
      team := team + [c];
    }
    assert reqs[..|reqs|] == reqs;
    forall i | 0 <= i < |reqs| ensures team[i] == DirectMatch(idx, reqs[i], Ids(team[..i])) {
      FirstPassSlot(idx, reqs, i);
    }
  }

  /** When the matcher finds nobody, every qualified contributor is already taken. */
  lemma QualifiedIsExhausted(idx: Index, people: seq<Contributor>, req: SkillRequirement, taken: set<nat>, id: nat)
    requires WellFormedIndex(idx) && Consistent(idx, people)
    requires ExhaustedBelow(Table(idx, req.skillName), req.minLevel, taken, |Table(idx, req.skillName)|)
    requires Qualified(people, id, req)
    ensures id in taken
  {
    var lvl := LevelIn(people[id].skills, req.skillName).value;
    assert id in MembersOf(idx, req.skillName, lvl);
    var levels := Table(idx, req.skillName);
    var p := Lookup(levels, lvl).value;
    var k :| 0 <= k < |levels[p].members| && levels[p].members[k] == id;
  }

  /**
   * The first slot, in ascending order among `candidates` from `from` on,
   * whose requirement admits a novice and a mentor (the firstNotNullOfOrNull
   * over hole or replaceable indices).
   */
  function FirstSlotWithDuo(idx: Index, people: seq<Contributor>, reqs: seq<SkillRequirement>,
                            team: seq<Option<nat>>, taken: set<nat>, candidates: set<nat>, from: nat): (r: Option<(nat, Duo)>)
    requires from <= |reqs|
    ensures r.Some? ==> from <= r.value.0 < |reqs| && r.value.0 in candidates &&
                        FindMentoreeFor(idx, people, reqs[r.value.0], team, taken) == Some(r.value.1)
    decreases |reqs| - from
  {
    if from == |reqs| then None
    else if from in candidates && FindMentoreeFor(idx, people, reqs[from], team, taken).Some? then
      Some((from, FindMentoreeFor(idx, people, reqs[from], team, taken).value))
    else FirstSlotWithDuo(idx, people, reqs, team, taken, candidates, from + 1)
  }

  /** The search passes over no candidate before the one it returns: those admit no duo. */
  lemma {:induction false} FirstSlotWithDuoSkips(idx: Index, people: seq<Contributor>, reqs: seq<SkillRequirement>,
                                                 team: seq<Option<nat>>, taken: set<nat>, candidates: set<nat>,
                                                 from: nat, i: nat)
    requires from <= i < |reqs| && i in candidates
    requires var r := FirstSlotWithDuo(idx, people, reqs, team, taken, candidates, from); r.None? || i < r.value.0
    ensures FindMentoreeFor(idx, people, reqs[i], team, taken).None?
    decreases |reqs| - from
  {
    if !(from in candidates && FindMentoreeFor(idx, people, reqs[from], team, taken).Some?) {
      assert FirstSlotWithDuo(idx, people, reqs, team, taken, candidates, from) ==
             FirstSlotWithDuo(idx, people, reqs, team, taken, candidates, from + 1);
      if i > from {
        FirstSlotWithDuoSkips(idx, people, reqs, team, taken, candidates, from + 1, i);
      }
    }
  }

  /** Slots that were filled before hole filling still hold the same contributor. */
  predicate KeepsFilled(team0: seq<Option<nat>>, team: seq<Option<nat>>) {
    |team| == |team0| && forall i :: 0 <= i < |team0| && team0[i].Some? ==> team[i] == team0[i]
  }

  /** Every pinned slot is a filled position of the team. */
  predicate PinnedFilled(team: seq<Option<nat>>, pinned: set<nat>) {
    forall i :: i in pinned ==> 0 <= i < |team| && team[i].Some?
  }

  /** Every former hole now filled is pinned and holds a novice for its requirement. */
  predicate FillersAreNovices(people: seq<Contributor>, reqs: seq<SkillRequirement>,
                              team0: seq<Option<nat>>, team: seq<Option<nat>>, pinned: set<nat>)
    requires |team0| == |reqs| && |team| == |team0|
  {
    forall i :: 0 <= i < |team0| && team0[i].None? && team[i].Some? ==>
      i in pinned && Novice(people, team[i].value, reqs[i])
  }

  /** Every former hole now filled has a mentor for its requirement in a pinned slot. */
  ghost predicate FillersMentored(people: seq<Contributor>, reqs: seq<SkillRequirement>,
                                  team0: seq<Option<nat>>, team: seq<Option<nat>>, pinned: set<nat>)
    requires |team0| == |reqs| && |team| == |team0|
  {
    forall i :: 0 <= i < |team0| && team0[i].None? && team[i].Some? ==>
      exists j :: j in pinned && 0 <= j < |team| && IsMentor(people, team[j], reqs[i])
  }

  /** Every pinned slot is a former hole, or holds the mentor of a former hole now filled. */
  ghost predicate PinnedForFillers(people: seq<Contributor>, reqs: seq<SkillRequirement>,
                                   team0: seq<Option<nat>>, team: seq<Option<nat>>, pinned: set<nat>)
    requires |team0| == |reqs| && |team| == |team0|
  {
    forall i :: i in pinned ==>
      0 <= i < |team| &&
      (team0[i].None? || exists j :: 0 <= j < |team| && team0[j].None? && team[j].Some? && IsMentor(people, team[i], reqs[j]))
  }

  /** What hole filling keeps: filled slots stay, new fillers are pinned, mentored novices. */
  ghost predicate FillInvariant(people: seq<Contributor>, reqs: seq<SkillRequirement>,
                                team0: seq<Option<nat>>, team: seq<Option<nat>>, taken: set<nat>, pinned: set<nat>)
  {
    |team0| == |reqs| && KeepsFilled(team0, team) && TeamState(team, taken, people) &&
    PinnedFilled(team, pinned) &&
    FillersAreNovices(people, reqs, team0, team, pinned) &&
    FillersMentored(people, reqs, team0, team, pinned) &&
    PinnedForFillers(people, reqs, team0, team, pinned)
  }

  /** Pinning the filled hole `h` and its mentor's slot keeps every pin explained. */
  lemma FillStepPinned(people: seq<Contributor>, reqs: seq<SkillRequirement>,
                       team0: seq<Option<nat>>, team: seq<Option<nat>>, pinned: set<nat>, h: nat, duo: Duo)
    requires |team0| == |reqs| && KeepsFilled(team0, team) && PinnedFilled(team, pinned)
    requires PinnedForFillers(people, reqs, team0, team, pinned)
    requires h < |team| && team[h].None? && duo.mentorIndex < |team| && IsMentor(people, team[duo.mentorIndex], reqs[h])
    ensures PinnedForFillers(people, reqs, team0, team[h := Some(duo.noob)], pinned + {h, duo.mentorIndex})
  {
    var team' := team[h := Some(duo.noob)];
    forall i | i in pinned + {h, duo.mentorIndex}
      ensures 0 <= i < |team'| && (team0[i].None? ||
        exists j :: 0 <= j < |team'| && team0[j].None? && team'[j].Some? && IsMentor(people, team'[i], reqs[j]))
    {
      if i == h {
      } else if i in pinned && team0[i].Some? {
        var j :| 0 <= j < |team| && team0[j].None? && team[j].Some? && IsMentor(people, team[i], reqs[j]);
        assert team'[j] == team[j] && team'[i] == team[i];
      } else if i == duo.mentorIndex && team0[i].Some? {
        assert team'[i] == team[i];
        assert 0 <= h < |team'| && team0[h].None? && team'[h].Some? && IsMentor(people, team'[i], reqs[h]);
      }
    }
  }

  /** Putting a new contributor of the arena into a slot keeps the taken set in step with the team. */
  lemma PutKeepsTeamState(people: seq<Contributor>, team: seq<Option<nat>>, taken: set<nat>, h: nat, n: nat)
    requires TeamState(team, taken, people) && h < |team| && n !in taken && n < |people|
    ensures TeamState(team[h := Some(n)], (if team[h].Some? then taken - {team[h].value} else taken) + {n}, people)
  {
    IdsPut(team, h, n);
  }

  lemma FillStepKeeps(team0: seq<Option<nat>>, team: seq<Option<nat>>, pinned: set<nat>, h: nat, duo: Duo)
    requires KeepsFilled(team0, team) && PinnedFilled(team, pinned)
    requires h < |team| && team[h].None? && duo.mentorIndex < |team| && team[duo.mentorIndex].Some?
    ensures KeepsFilled(team0, team[h := Some(duo.noob)])
    ensures PinnedFilled(team[h := Some(duo.noob)], pinned + {h, duo.mentorIndex})
  {
  }

  lemma FillStepNovices(people: seq<Contributor>, reqs: seq<SkillRequirement>,
                        team0: seq<Option<nat>>, team: seq<Option<nat>>, pinned: set<nat>, h: nat, duo: Duo)
    requires |team0| == |reqs| && |team| == |team0| && h < |team|
    requires FillersAreNovices(people, reqs, team0, team, pinned)
    requires Novice(people, duo.noob, reqs[h])
    ensures FillersAreNovices(people, reqs, team0, team[h := Some(duo.noob)], pinned + {h, duo.mentorIndex})
  {
  }

  lemma FillStepMentored(people: seq<Contributor>, reqs: seq<SkillRequirement>,
                         team0: seq<Option<nat>>, team: seq<Option<nat>>, pinned: set<nat>, h: nat, duo: Duo)
    requires |team0| == |reqs| && |team| == |team0| && h < |team| && team[h].None?
    requires FillersMentored(people, reqs, team0, team, pinned)
    requires duo.mentorIndex < |team| && IsMentor(people, team[duo.mentorIndex], reqs[h])
    ensures FillersMentored(people, reqs, team0, team[h := Some(duo.noob)], pinned + {h, duo.mentorIndex})
  {
    var team' := team[h := Some(duo.noob)];
    var pinned' := pinned + {h, duo.mentorIndex};
    assert duo.mentorIndex != h;
    assert team'[duo.mentorIndex] == team[duo.mentorIndex];
    forall i | 0 <= i < |team0| && team0[i].None? && team'[i].Some?
      ensures exists j :: j in pinned' && 0 <= j < |team'| && IsMentor(people, team'[j], reqs[i])
    {
      if i == h {
        assert IsMentor(people, team'[duo.mentorIndex], reqs[i]);
      } else {
        assert team[i].Some?;
        var j :| j in pinned && 0 <= j < |team| && IsMentor(people, team[j], reqs[i]);
        assert team'[j] == team[j];
      }
    }
  }

  /** Placing a mentored novice in hole `h` keeps FillInvariant. */
  lemma FillStep(people: seq<Contributor>, reqs: seq<SkillRequirement>,
                 team0: seq<Option<nat>>, team: seq<Option<nat>>, taken: set<nat>, pinned: set<nat>,
                 h: nat, duo: Duo)
    requires FillInvariant(people, reqs, team0, team, taken, pinned)
    requires h < |team| && team[h].None? && duo.noob !in taken && Novice(people, duo.noob, reqs[h])
    requires duo.mentorIndex < |team| && IsMentor(people, team[duo.mentorIndex], reqs[h])
    ensures FillInvariant(people, reqs, team0, team[h := Some(duo.noob)], taken + {duo.noob}, pinned + {h, duo.mentorIndex})
  {
    PutKeepsTeamState(people, team, taken, h, duo.noob);
    FillStepKeeps(team0, team, pinned, h, duo);
    FillStepNovices(people, reqs, team0, team, pinned, h, duo);
    FillStepMentored(people, reqs, team0, team, pinned, h, duo);
    FillStepPinned(people, reqs, team0, team, pinned, h, duo);
  }

  /** The positions of the empty slots. */
  function Holes(team: seq<Option<nat>>): set<nat> {
    set i | 0 <= i < |team| && team[i].None?
  }

  lemma HolesPut(team: seq<Option<nat>>, h: nat, n: nat)
    requires h < |team|
    ensures Holes(team[h := Some(n)]) == Holes(team) - {h}
  {
  }

  /** No empty slot's requirement admits a novice and a mentor on `team` with `taken` in use. */
  ghost predicate NoDuoForHoles(idx: Index, people: seq<Contributor>, reqs: seq<SkillRequirement>,
                                team: seq<Option<nat>>, taken: set<nat>)
    requires |team| == |reqs|
  {
    forall i :: 0 <= i < |team| && team[i].None? ==> FindMentoreeFor(idx, people, reqs[i], team, taken).None?
  }

  /** The duo found for hole `h` is placed: the invariant holds and `h` is no longer a hole. */
  lemma FillFound(idx: Index, people: seq<Contributor>, reqs: seq<SkillRequirement>,
                  team0: seq<Option<nat>>, team: seq<Option<nat>>, taken: set<nat>, pinned: set<nat>, h: nat, duo: Duo)
    requires Consistent(idx, people) && FillInvariant(people, reqs, team0, team, taken, pinned)
    requires h < |team| && team[h].None? && FindMentoreeFor(idx, people, reqs[h], team, taken) == Some(duo)
    ensures FillInvariant(people, reqs, team0, team[h := Some(duo.noob)], taken + {duo.noob}, pinned + {h, duo.mentorIndex})
    ensures Holes(team[h := Some(duo.noob)]) == Holes(team) - {h}
  {
    assert Novice(people, duo.noob, reqs[h]);
    FillStep(people, reqs, team0, team, taken, pinned, h, duo);
    HolesPut(team, h, duo.noob);
  }

  /** When no hole is left, or the search over the holes finds nothing, no hole admits a duo. */
  lemma FillExhausted(idx: Index, people: seq<Contributor>, reqs: seq<SkillRequirement>,
                      team: seq<Option<nat>>, taken: set<nat>)
    requires |team| == |reqs|
    requires Holes(team) == {} || FirstSlotWithDuo(idx, people, reqs, team, taken, Holes(team), 0).None?
    ensures NoDuoForHoles(idx, people, reqs, team, taken)
  {
    forall i | 0 <= i < |team| && team[i].None? ensures FindMentoreeFor(idx, people, reqs[i], team, taken).None? {
      assert i in Holes(team);
      FirstSlotWithDuoSkips(idx, people, reqs, team, taken, Holes(team), 0, i);
    }
  }

  /**
   * Hole filling as a function: while a hole admits a novice and a mentor,
   * the first such hole gets the novice and both slots are pinned. Returns
   * the team, the contributors in use and the pinned slots.
   */
  function Fill(idx: Index, people: seq<Contributor>, reqs: seq<SkillRequirement>,
                team: seq<Option<nat>>, taken: set<nat>, pinned: set<nat>): (r: (seq<Option<nat>>, set<nat>, set<nat>))
    requires |team| == |reqs|
    ensures |r.0| == |team|
    decreases |Holes(team)|
  {
    if Holes(team) == {} then (team, taken, pinned)
    else match FirstSlotWithDuo(idx, people, reqs, team, taken, Holes(team), 0)
      case None => (team, taken, pinned)
      case Some((h, duo)) =>
        HolesPut(team, h, duo.noob);
        Fill(idx, people, reqs, team[h := Some(duo.noob)], taken + {duo.noob}, pinned + {h, duo.mentorIndex})
  }

  /**
   * Hole filling (fillHolesWithNoobs): while some hole's requirement admits a
   * novice and a mentor, the first such hole receives the novice, and both the
   * hole and the mentor's slot are pinned. Returns the pinned slots.
   */
  method FillHolesWithNoobs(idx: Index, people: seq<Contributor>, reqs: seq<SkillRequirement>,
                            team0: seq<Option<nat>>, taken0: set<nat>)
    returns (team: seq<Option<nat>>, taken: set<nat>, pinned: set<nat>)
    requires WellFormedIndex(idx) && Consistent(idx, people)
    requires |team0| == |reqs| && TeamState(team0, taken0, people)
    ensures (team, taken, pinned) == Fill(idx, people, reqs, team0, taken0, {})
    ensures KeepsFilled(team0, team) && TeamState(team, taken, people) && PinnedFilled(team, pinned)
    ensures FillersAreNovices(people, reqs, team0, team, pinned)
    ensures FillersMentored(people, reqs, team0, team, pinned)
    ensures PinnedForFillers(people, reqs, team0, team, pinned)
    ensures NoDuoForHoles(idx, people, reqs, team, taken)
  {
    team, taken, pinned := team0, taken0, {};
    var holeIndices := Holes(team);
    while holeIndices != {}
      invariant FillInvariant(people, reqs, team0, team, taken, pinned)
      invariant holeIndices == Holes(team)
      invariant Fill(idx, people, reqs, team0, taken0, {}) == Fill(idx, people, reqs, team, taken, pinned)
      decreases |holeIndices|
    {
      var found := FirstSlotWithDuo(idx, people, reqs, team, taken, holeIndices, 0);
      if found.None? {
        FillExhausted(idx, people, reqs, team, taken);
        break;
      }
      var holeIndex, duo := found.value.0, found.value.1;
      FillFound(idx, people, reqs, team0, team, taken, pinned, holeIndex, duo);
      taken := taken + {duo.noob};
      team := team[holeIndex := Some(duo.noob)];
      holeIndices := holeIndices - {holeIndex};
      pinned := pinned + {holeIndex, duo.mentorIndex};
    }
    if holeIndices == {} {
      FillExhausted(idx, people, reqs, team, taken);
    }
  }

  /** A complete team seen as a list of filled slots. */
  function Slots(devs: seq<nat>): (r: seq<Option<nat>>)
    ensures |r| == |devs| && forall i :: 0 <= i < |devs| ==> r[i] == Some(devs[i])
  {
    seq(|devs|, i requires 0 <= i < |devs| => Some(devs[i]))
  }

  /**
   * The team without holes, or None as soon as one slot is empty (the source's
   * allNotNullOrNull); a complete team reads back as the same slots.
   */
  function AllNotNullOrNull(team: seq<Option<nat>>): (r: Option<seq<nat>>)
    ensures r.None? <==> None in team
    ensures r.Some? ==> Slots(r.value) == team
  {
    if |team| == 0 then Some([])
    else if team[0].None? then None
    else match AllNotNullOrNull(team[1..])
      case None =>
        assert team == [team[0]] + team[1..];
        None
      case Some(rest) =>
        assert team == [team[0]] + team[1..];
        assert Slots([team[0].value] + rest) == [team[0]] + team[1..];
        Some([team[0].value] + rest)
  }

  /** Distinct filled slots make a list without duplicates. */
  lemma SlotsNoDup(devs: seq<nat>)
    requires DistinctSlots(Slots(devs))
    ensures NoDup(devs)
  {
    forall i, j | 0 <= i < j < |devs| ensures devs[i] != devs[j] {
      assert Slots(devs)[i] == Some(devs[i]) && Slots(devs)[j] == Some(devs[j]);
    }
  }

  lemma SlotsPut(devs: seq<nat>, h: nat, n: nat)
    requires h < |devs|
    ensures Slots(devs[h := n]) == Slots(devs)[h := Some(n)]
  {
  }

  /** What replacement keeps: pinned and still-replaceable slots untouched, swapped slots hold novices. */
  ghost predicate ReplaceInvariant(people: seq<Contributor>, reqs: seq<SkillRequirement>, devs0: seq<nat>,
                                   devs: seq<nat>, taken: set<nat>, pinned: set<nat>, replacable: set<nat>)
  {
    |devs0| == |reqs| && |devs| == |devs0| && TeamState(Slots(devs), taken, people) &&
    SwapsConfined(devs0, devs, pinned, replacable) && SwapsAreNovices(people, reqs, devs0, devs)
  }

  /** Slots that are pinned or still replaceable hold their original member. */
  predicate SwapsConfined(devs0: seq<nat>, devs: seq<nat>, pinned: set<nat>, replacable: set<nat>)
    requires |devs| == |devs0|
  {
    (forall i :: i in replacable ==> 0 <= i < |devs| && i !in pinned) &&
    (forall i :: 0 <= i < |devs| && devs[i] != devs0[i] ==> i !in pinned && i !in replacable)
  }

  /** Every swapped slot holds a novice for its requirement. */
  predicate SwapsAreNovices(people: seq<Contributor>, reqs: seq<SkillRequirement>, devs0: seq<nat>, devs: seq<nat>)
    requires |devs0| == |reqs| && |devs| == |devs0|
  {
    forall i :: 0 <= i < |devs| && devs[i] != devs0[i] ==> Novice(people, devs[i], reqs[i])
  }

  lemma ReplaceStep(people: seq<Contributor>, reqs: seq<SkillRequirement>, devs0: seq<nat>,
                    devs: seq<nat>, taken: set<nat>, pinned: set<nat>, replacable: set<nat>, h: nat, duo: Duo)
    requires ReplaceInvariant(people, reqs, devs0, devs, taken, pinned, replacable)
    requires h in replacable && duo.noob !in taken && Novice(people, duo.noob, reqs[h])
    ensures ReplaceInvariant(people, reqs, devs0, devs[h := duo.noob], taken + {duo.noob} - {devs[h]}, pinned,
                             replacable - {h} - {duo.mentorIndex})
  {
    assert devs[h] in taken by { assert Slots(devs)[h] == Some(devs[h]); }
    PutKeepsTeamState(people, Slots(devs), taken, h, duo.noob);
    SlotsPut(devs, h, duo.noob);
    assert taken + {duo.noob} - {devs[h]} == (taken - {devs[h]}) + {duo.noob};
  }

  /** The slots below `n` that are not pinned: the ones replacement may swap. */
  function Unpinned(n: nat, pinned: set<nat>): set<nat> {
    set i: nat | i < n && i !in pinned
  }

  /**
   * Replacement as a function: while a replaceable slot admits a novice and a
   * mentor on the current team, the first such slot gets the novice, the
   * member it held is released, and that slot and the mentor's slot stop
   * being replaceable. Returns the team and the contributors in use.
   */
  function Replace(idx: Index, people: seq<Contributor>, reqs: seq<SkillRequirement>,
                   devs: seq<nat>, taken: set<nat>, replacable: set<nat>): (r: (seq<nat>, set<nat>))
    requires |devs| == |reqs|
    ensures |r.0| == |devs|
    decreases |replacable|
  {
    if replacable == {} then (devs, taken)
    else match FirstSlotWithDuo(idx, people, reqs, Slots(devs), taken, replacable, 0)
      case None => (devs, taken)
      case Some((h, duo)) =>
        Replace(idx, people, reqs, devs[h := duo.noob], taken + {duo.noob} - {devs[h]}, replacable - {h} - {duo.mentorIndex})
  }

  /**
   * Replacement (replaceWithNoobs): among the slots that are not pinned, in
   * ascending order, the first whose requirement admits a novice and a mentor
   * on the current team has its member swapped for the novice; the swapped
   * member is released, and both that slot and the mentor's slot stop being
   * replaceable. `left` is the set of replaceable slots when the loop stops.
   */
  method ReplaceWithNoobs(idx: Index, people: seq<Contributor>, reqs: seq<SkillRequirement>,
                          devs0: seq<nat>, taken0: set<nat>, pinned: set<nat>)
    returns (devs: seq<nat>, taken: set<nat>, ghost left: set<nat>)
    requires Consistent(idx, people)
    requires |devs0| == |reqs| && TeamState(Slots(devs0), taken0, people)
    ensures (devs, taken) == Replace(idx, people, reqs, devs0, taken0, Unpinned(|devs0|, pinned))
    ensures |devs| == |devs0| && TeamState(Slots(devs), taken, people)
    ensures forall i :: 0 <= i < |devs| && i in pinned ==> devs[i] == devs0[i]
    ensures SwapsConfined(devs0, devs, pinned, left) && SwapsAreNovices(people, reqs, devs0, devs)
    ensures forall i :: i in left ==> FindMentoreeFor(idx, people, reqs[i], Slots(devs), taken).None?
  {
    devs, taken := devs0, taken0;
    var replacable := Unpinned(|devs|, pinned);
    while replacable != {}
      invariant ReplaceInvariant(people, reqs, devs0, devs, taken, pinned, replacable)
      invariant Replace(idx, people, reqs, devs0, taken0, Unpinned(|devs0|, pinned)) ==
                Replace(idx, people, reqs, devs, taken, replacable)
      decreases |replacable|
    {
      var found := FirstSlotWithDuo(idx, people, reqs, Slots(devs), taken, replacable, 0);
      if found.None? {
        forall i | i in replacable ensures FindMentoreeFor(idx, people, reqs[i], Slots(devs), taken).None? {
          FirstSlotWithDuoSkips(idx, people, reqs, Slots(devs), taken, replacable, 0, i);
        }
        break;
      }
      var (index, duo) := found.value;
      assert Novice(people, duo.noob, reqs[index]);
      ReplaceStep(people, reqs, devs0, devs, taken, pinned, replacable, index, duo);
      taken := taken + {duo.noob} - {devs[index]};
      devs := devs[index := duo.noob];
      replacable := replacable - {index} - {duo.mentorIndex};
    }
    left := replacable;
  }

  /**
   * The mentor search runs over the current team, slot being replaced
   * included: with a single slot held by a level-3 C++ contributor and a
   * level-2 one free, the level-3 member mentors its own replacement, and the
   * team after the swap has nobody left at level 3.
   */
  lemma MentorCanBeTheReplacedWorker()
    ensures Consistent(SwapIndex, SwapPeople) &&
      FindMentoreeFor(SwapIndex, SwapPeople, SwapReq, Slots([0]), {0}) == Some(Duo(1, 0)) &&
      FindIndexOfMentorFor(Slots([0])[0 := Some(1)], SwapPeople, SwapReq) == -1
  {
    SwapConsistent();
    SwapDuo();
    SwapNoMentorLeft();
  }

  /**
   * The replacement phase searches mentors over the whole team, the slot being
   * replaced included: when its member is the first one qualified for its own
   * requirement, any duo found for that slot names the slot itself as mentor.
   */
  lemma ReplacedMemberMentorsItself(idx: Index, people: seq<Contributor>, reqs: seq<SkillRequirement>,
                                    devs: seq<nat>, taken: set<nat>, i: nat)
    requires i < |devs| && i < |reqs| && IsMentor(people, Some(devs[i]), reqs[i])
    requires forall k :: 0 <= k < i ==> !IsMentor(people, Some(devs[k]), reqs[i])
    ensures FindIndexOfMentorFor(Slots(devs), people, reqs[i]) == i
    ensures var duo := FindMentoreeFor(idx, people, reqs[i], Slots(devs), taken);
      duo.Some? ==> duo.value.mentorIndex == i
  {
    var team := Slots(devs);
    assert IsMentor(people, team[i], reqs[i]);
    assert forall k :: 0 <= k < i ==> !IsMentor(people, team[k], reqs[i]);
  }

  /** Ada knows C++ at level 3, Bob at level 2; the index files them accordingly. */
  const SwapPeople := [Contributor("Ada", [Skill("C++", 3)], 0), Contributor("Bob", [Skill("C++", 2)], 0)]
  const SwapIndex: Index := map["C++" := [Bucket(2, [1]), Bucket(3, [0])]]
  const SwapReq := SkillRequirement("C++", 3)

  lemma SwapConsistent()
    ensures Consistent(SwapIndex, SwapPeople)
  {
    var levels := SwapIndex["C++"];
    assert levels[1..] == [Bucket(3, [0])] && levels[1..][1..] == [];
    assert LevelIn(SwapPeople[0].skills, "C++") == Some(3);
    assert LevelIn(SwapPeople[1].skills, "C++") == Some(2);
    forall s: SkillName, lvl: int, id: nat | id in MembersOf(SwapIndex, s, lvl)
      ensures HasLevel(SwapPeople, id, s, lvl)
    {
      assert s == "C++";
      assert lvl == 2 || lvl == 3;
    }
    forall id: nat, s: SkillName | id < |SwapPeople| && LevelIn(SwapPeople[id].skills, s).Some?
      ensures id in MembersOf(SwapIndex, s, LevelIn(SwapPeople[id].skills, s).value)
    {
      assert SwapPeople[id].skills[1..] == [];
    }
  }

  lemma SwapDuo()
    ensures FindMentoreeFor(SwapIndex, SwapPeople, SwapReq, Slots([0]), {0}) == Some(Duo(1, 0))
  {
    assert MembersOf(SwapIndex, "C++", 2) == [1];
    assert IsMentor(SwapPeople, Some(0), SwapReq) by {
      assert SwapPeople[0].skills[0] == Skill("C++", 3);
    }
  }

  lemma SwapNoMentorLeft()
    ensures FindIndexOfMentorFor(Slots([0])[0 := Some(1)], SwapPeople, SwapReq) == -1
  {
    assert !IsMentor(SwapPeople, Some(1), SwapReq) by {
      HoldsAtLeastIff(SwapPeople[1].skills, "C++", 3);
    }
  }

  /**
   * The score a project earns when it ends on `endDate`: one point less per
   * day past `bestBefore`, never below zero (the two coerceAtLeast(0) calls).
   */
  function EffectiveScore(score: int, endDate: int, bestBefore: int): (r: int)
    ensures r >= 0
    ensures score >= 0 ==> r <= score
    ensures score > 0 ==> (r == score <==> endDate <= bestBefore)
    ensures endDate > bestBefore && score - (endDate - bestBefore) >= 0 ==> r == score - (endDate - bestBefore)
    ensures score >= 0 && endDate - bestBefore >= score ==> r == 0
  {
    var latenessPenalty := if endDate - bestBefore < 0 then 0 else endDate - bestBefore;
    var effective := score - latenessPenalty;
    if effective < 0 then 0 else effective
  }

  /** Ending later never earns more. */
  lemma EffectiveScoreMonotone(score: int, end1: int, end2: int, bestBefore: int)
    requires end1 <= end2
    ensures EffectiveScore(score, end2, bestBefore) <= EffectiveScore(score, end1, bestBefore)
  {
  }

  /** Each member either meets its requirement or is one level short of it. */
  predicate Staffed(people: seq<Contributor>, reqs: seq<SkillRequirement>, devs: seq<nat>)
    requires |devs| == |reqs|
  {
    forall i :: 0 <= i < |devs| ==> Qualified(people, devs[i], reqs[i]) || Novice(people, devs[i], reqs[i])
  }

  /** Direct matches are qualified and every later change places a novice, so the final team is staffed. */
  lemma FinalTeamStaffed(people: seq<Contributor>, reqs: seq<SkillRequirement>, initial: seq<Option<nat>>,
                         filled: seq<Option<nat>>, pinned: set<nat>, devs0: seq<nat>, devs: seq<nat>)
    requires |initial| == |reqs| && KeepsFilled(initial, filled) && MatchedGreedily(people, reqs, initial)
    requires FillersAreNovices(people, reqs, initial, filled, pinned)
    requires Slots(devs0) == filled && |devs| == |devs0| && SwapsAreNovices(people, reqs, devs0, devs)
    ensures Staffed(people, reqs, devs)
  {
    forall i | 0 <= i < |devs|
      ensures Qualified(people, devs[i], reqs[i]) || Novice(people, devs[i], reqs[i])
    {
      assert Slots(devs0)[i] == filled[i];
    }
  }

  /** The members of a team whose slots are in the arena are valid ids. */
  lemma SlotsValid(people: seq<Contributor>, devs: seq<nat>, taken: set<nat>)
    requires TeamState(Slots(devs), taken, people)
    ensures ValidIds(people, devs) && NoDup(devs)
  {
    forall k | 0 <= k < |devs| ensures devs[k] < |people| { assert Slots(devs)[k] == Some(devs[k]); }
    SlotsNoDup(devs);
  }

  /**
   * A complete assignment for a project: one distinct arena member per
   * requirement, each qualified or a novice, scored for the team's earliest
   * common start.
   */
  ghost predicate Committable(people: seq<Contributor>, projects: seq<Project>, a: Assignment) {
    a.project < |projects| &&
    var p := projects[a.project];
    |a.contributors| == |p.requiredSkills| && |a.contributors| > 0 &&
    NoDup(a.contributors) && ValidIds(people, a.contributors) &&
    Staffed(people, p.requiredSkills, a.contributors) &&
    a.effectiveScore == EffectiveScore(p.score, MaxDay(people, a.contributors) + p.duration, p.bestBefore)
  }

  /** A complete team that passed both phases, scored for its start day, can be committed. */
  lemma AssembledCommittable(people: seq<Contributor>, projects: seq<Project>, pi: nat,
                             initial: seq<Option<nat>>, filled: seq<Option<nat>>, pinned: set<nat>,
                             devs0: seq<nat>, devs: seq<nat>, taken: set<nat>)
    requires pi < |projects| && |projects[pi].requiredSkills| > 0
    requires var reqs := projects[pi].requiredSkills;
      |initial| == |reqs| && KeepsFilled(initial, filled) && MatchedGreedily(people, reqs, initial) &&
      FillersAreNovices(people, reqs, initial, filled, pinned) &&
      Slots(devs0) == filled && |devs| == |devs0| && SwapsAreNovices(people, reqs, devs0, devs) &&
      TeamState(Slots(devs), taken, people)
    ensures ValidIds(people, devs) && |devs| > 0
    ensures var p := projects[pi];
      Committable(people, projects,
                  Assignment(pi, devs, EffectiveScore(p.score, MaxDay(people, devs) + p.duration, p.bestBefore)))
  {
    FinalTeamStaffed(people, projects[pi].requiredSkills, initial, filled, pinned, devs0, devs);
    SlotsValid(people, devs, taken);
  }

  /**
   * The team findBestAssignmentFor builds for requirements `reqs`: the first
   * pass, hole filling, None if a hole is left, then replacement over the
   * slots hole filling did not pin.
   */
  function AssembleTeam(idx: Index, people: seq<Contributor>, reqs: seq<SkillRequirement>): Option<seq<nat>> {
    var initial := FirstPass(idx, reqs, |reqs|);
    var (filled, taken, pinned) := Fill(idx, people, reqs, initial, Ids(initial), {});
    match AllNotNullOrNull(filled)
      case None => None
      case Some(devs) => Some(Replace(idx, people, reqs, devs, taken, Unpinned(|devs|, pinned)).0)
  }

  /**
   * `c` is the evaluation of project `pi`: None when the assembled team keeps
   * a hole, otherwise the assembled team scored for its earliest common start.
   */
  ghost predicate Evaluated(idx: Index, people: seq<Contributor>, projects: seq<Project>, pi: nat, c: Option<Assignment>)
    requires pi < |projects|
  {
    match AssembleTeam(idx, people, projects[pi].requiredSkills)
      case None => c.None?
      case Some(devs) =>
        c.Some? && c.value.project == pi && c.value.contributors == devs && Committable(people, projects, c.value)
  }

  /** A project has at most one evaluation on a given arena and index. */
  lemma EvaluatedUnique(idx: Index, people: seq<Contributor>, projects: seq<Project>, pi: nat,
                        c1: Option<Assignment>, c2: Option<Assignment>)
    requires pi < |projects| && Evaluated(idx, people, projects, pi, c1) && Evaluated(idx, people, projects, pi, c2)
    ensures c1 == c2
  {
    var p := projects[pi];
    match AssembleTeam(idx, people, p.requiredSkills) {
      case None =>
      case Some(devs) =>
        var a := Assignment(pi, devs, EffectiveScore(p.score, MaxDay(people, devs) + p.duration, p.bestBefore));
        assert c1.value == a;
        assert c2.value == a;
    }
  }

  /**
   * Building the candidate assignment for project `pi` (findBestAssignmentFor):
   * direct matches, hole filling, None if a hole is left, replacement, then
   * the score for the team's earliest common start. `initial` and `filled`
   * are the team after the first pass and after hole filling.
   */
  method FindBestAssignmentFor(idx: Index, people: seq<Contributor>, projects: seq<Project>, pi: nat)
    returns (r: Option<Assignment>, ghost initial: seq<Option<nat>>, ghost filled: seq<Option<nat>>)
    requires WellFormedIndex(idx) && Consistent(idx, people)
    requires pi < |projects| && |projects[pi].requiredSkills| > 0
    ensures Evaluated(idx, people, projects, pi, r)
    ensures var reqs := projects[pi].requiredSkills;
      initial == FirstPass(idx, reqs, |reqs|) && filled == Fill(idx, people, reqs, initial, Ids(initial), {}).0
    ensures var reqs := projects[pi].requiredSkills;
      |initial| == |reqs| && |filled| == |reqs| && KeepsFilled(initial, filled) &&
      MatchedGreedily(people, reqs, initial) && NoDuoForHoles(idx, people, reqs, filled, Ids(filled))
    ensures r.None? <==> None in filled
    ensures r.Some? ==> r.value.project == pi && Committable(people, projects, r.value)
  {
    var project := projects[pi];
    var reqs := project.requiredSkills;
    var team, taken := InitialTeam(idx, people, reqs);
    initial := team;
    var pinned;
    team, taken, pinned := FillHolesWithNoobs(idx, people, reqs, team, taken);
    filled := team;
    var complete := AllNotNullOrNull(team);
    if complete.None? {
      return None, initial, filled;
    }
    var a := ReplaceAndScore(idx, people, projects, pi, initial, filled, pinned, complete.value, taken);
    r := Some(a);
  }

  /** The last two steps of findBestAssignmentFor: swap in novices where possible, then score the team. */
  method ReplaceAndScore(idx: Index, people: seq<Contributor>, projects: seq<Project>, pi: nat,
                         ghost initial: seq<Option<nat>>, ghost filled: seq<Option<nat>>, pinned: set<nat>,
                         devs0: seq<nat>, taken0: set<nat>)
    returns (a: Assignment)
    requires Consistent(idx, people) && pi < |projects| && |projects[pi].requiredSkills| > 0
    requires var reqs := projects[pi].requiredSkills;
      |initial| == |reqs| && KeepsFilled(initial, filled) && MatchedGreedily(people, reqs, initial) &&
      FillersAreNovices(people, reqs, initial, filled, pinned) &&
      Slots(devs0) == filled && TeamState(Slots(devs0), taken0, people)
    ensures a.project == pi && Committable(people, projects, a)
    ensures a.contributors == Replace(idx, people, projects[pi].requiredSkills, devs0, taken0, Unpinned(|devs0|, pinned)).0
  {
    var project := projects[pi];
    var devs, taken, left := ReplaceWithNoobs(idx, people, project.requiredSkills, devs0, taken0, pinned);
    AssembledCommittable(people, projects, pi, initial, filled, pinned, devs0, devs, taken);
    var effectiveEndDate := MaxDay(people, devs) + project.duration;
    var score := EffectiveScore(project.score, effectiveEndDate, project.bestBefore);
    a := Assignment(pi, devs, score);
  }
}
