/**
 * The greedy outer loop (solve) and the state update after each committed
 * project (updateSkillsAndAvailability). `Problem` owns the mutable state:
 * the contributors, the skill index and the projects still to schedule.
 */
module Scheduler {
  import opened Wrappers
  import opened Domain
  import opened Ranking
  import opened SkillIndex
  import opened Matcher
  import opened Assigner
  import opened Output

  /**
   * Every project has at least one requirement (maxOf over an empty team
   * throws) and a positive duration times best-before day (the divisor of
   * the business value).
   */
  predicate WellFormedProjects(projects: seq<Project>) {
    forall p :: 0 <= p < |projects| ==>
      |projects[p].requiredSkills| > 0 && projects[p].duration * projects[p].bestBefore > 0
  }

  // ---------------------------------------------------------------------------
  // Business value and the choice of the next project

  function Weight(p: Project): int {
    p.duration * p.bestBefore
  }

  /** The business value as an exact quotient: effective score over duration times best-before. */
  function BusinessValue(a: Assignment, projects: seq<Project>): real
    requires a.project < |projects| && Weight(projects[a.project]) > 0
  {
    a.effectiveScore as real / Weight(projects[a.project]) as real
  }

  /** `a` has the strictly higher business value, compared by cross-multiplication. */
  predicate Better(a: Assignment, b: Assignment, projects: seq<Project>)
    requires a.project < |projects| && b.project < |projects|
  {
    a.effectiveScore * Weight(projects[b.project]) > b.effectiveScore * Weight(projects[a.project])
  }

  lemma QuotientOrder(x: int, y: int, z: int, w: int)
    requires y > 0 && w > 0
    ensures x * w > z * y <==> x as real / y as real > z as real / w as real
  {
    var q1 := x as real / y as real;
    var q2 := z as real / w as real;
    assert x as real == q1 * y as real;
    assert z as real == q2 * w as real;
    assert (x * w) as real == q1 * (y as real * w as real);
    assert (z * y) as real == q2 * (y as real * w as real);
    assert y as real * w as real > 0.0;
  }

  /** The integer comparison decides exactly the order of the quotients. */
  lemma BetterIsHigherValue(a: Assignment, b: Assignment, projects: seq<Project>)
    requires a.project < |projects| && b.project < |projects|
    requires Weight(projects[a.project]) > 0 && Weight(projects[b.project]) > 0
    ensures Better(a, b, projects) <==> BusinessValue(a, projects) > BusinessValue(b, projects)
  {
    QuotientOrder(a.effectiveScore, Weight(projects[a.project]), b.effectiveScore, Weight(projects[b.project]));
  }

  /** Every assignment of `xs` refers to a project with a positive weight. */
  predicate Weighted(xs: seq<Assignment>, projects: seq<Project>) {
    forall k :: 0 <= k < |xs| ==> xs[k].project < |projects| && Weight(projects[xs[k].project]) > 0
  }

  /**
   * maxByOrNull on a non-empty list: the first element, replaced by each later
   * one with a strictly higher business value. The result has the highest
   * value, and is the first element to have it.
   */
  function MaxBy(xs: seq<Assignment>, projects: seq<Project>): (r: Assignment)
    requires |xs| > 0 && Weighted(xs, projects)
    ensures r in xs
    ensures forall k :: 0 <= k < |xs| ==> BusinessValue(xs[k], projects) <= BusinessValue(r, projects)
    ensures exists k :: 0 <= k < |xs| && xs[k] == r &&
              forall j :: 0 <= j < k ==> BusinessValue(xs[j], projects) < BusinessValue(r, projects)
  {
    if |xs| == 1 then xs[0]
    else
      var n := |xs| - 1;
      WeightedPrefix(xs, projects, n);
      var m := MaxBy(xs[..n], projects);
      MaxByExtend(xs, projects, m);
      if Better(xs[n], m, projects) then xs[n] else m
  }

  lemma WeightedPrefix(xs: seq<Assignment>, projects: seq<Project>, n: nat)
    requires Weighted(xs, projects) && n <= |xs|
    ensures Weighted(xs[..n], projects)
  {
  }

  /** One more element either beats the running maximum strictly or leaves it in place. */
  lemma MaxByExtend(xs: seq<Assignment>, projects: seq<Project>, m: Assignment)
    requires |xs| > 1 && Weighted(xs, projects)
    requires var ys := xs[..|xs| - 1];
      m in ys &&
      (forall k :: 0 <= k < |ys| ==> BusinessValue(ys[k], projects) <= BusinessValue(m, projects)) &&
      exists k :: 0 <= k < |ys| && ys[k] == m &&
        forall j :: 0 <= j < k ==> BusinessValue(ys[j], projects) < BusinessValue(m, projects)
    ensures m.project < |projects|
    ensures var n := |xs| - 1;
      var r := if Better(xs[n], m, projects) then xs[n] else m;
      r in xs &&
      (forall k :: 0 <= k < |xs| ==> BusinessValue(xs[k], projects) <= BusinessValue(r, projects)) &&
      exists k :: 0 <= k < |xs| && xs[k] == r &&
        forall j :: 0 <= j < k ==> BusinessValue(xs[j], projects) < BusinessValue(r, projects)
  {
    var n := |xs| - 1;
    var ys := xs[..n];
    var w :| 0 <= w < |ys| && ys[w] == m &&
      forall j :: 0 <= j < w ==> BusinessValue(ys[j], projects) < BusinessValue(m, projects);
    assert xs[w] == m;
    BetterIsHigherValue(xs[n], m, projects);
    forall k | 0 <= k < n ensures xs[k] == ys[k] { }
    if Better(xs[n], m, projects) {
      assert forall j :: 0 <= j < n ==> BusinessValue(xs[j], projects) < BusinessValue(xs[n], projects);
    } else {
      assert forall j :: 0 <= j < w ==> BusinessValue(xs[j], projects) < BusinessValue(m, projects);
    }
  }

  /** The assignments found, in order (mapNotNull). */
  function Present(cands: seq<Option<Assignment>>): (r: seq<Assignment>)
    ensures forall x :: x in r <==> Some(x) in cands
  {
    if |cands| == 0 then []
    else
      var n := |cands| - 1;
      var rest := Present(cands[..n]);
      assert cands == cands[..n] + [cands[n]];
      if cands[n].Some? then rest + [cands[n].value] else rest
  }

  /** The winner of a round of evaluations, None when no project could be staffed. */
  function Pick(cands: seq<Option<Assignment>>, projects: seq<Project>): (r: Option<Assignment>)
    requires Weighted(Present(cands), projects)
    ensures r.None? <==> forall k :: 0 <= k < |cands| ==> cands[k].None?
    ensures r.Some? ==> Some(r.value) in cands
  {
    if |Present(cands)| == 0 then
      assert forall k :: 0 <= k < |cands| ==> cands[k].Some? ==> cands[k].value in Present(cands);
      None
    else Some(MaxBy(Present(cands), projects))
  }

  lemma PresentSnoc(cands: seq<Option<Assignment>>, c: Option<Assignment>)
    ensures Present(cands + [c]) == Present(cands) + (if c.Some? then [c.value] else [])
  {
    assert (cands + [c])[..|cands|] == cands;
  }

  lemma MaxBySnoc(xs: seq<Assignment>, x: Assignment, projects: seq<Project>)
    requires |xs| > 0 && Weighted(xs + [x], projects)
    ensures Weighted(xs, projects)
    ensures MaxBy(xs + [x], projects) == if Better(x, MaxBy(xs, projects), projects) then x else MaxBy(xs, projects)
  {
    assert (xs + [x])[..|xs|] == xs;
    assert forall k :: 0 <= k < |xs| ==> xs[k] == (xs + [x])[k];
  }

  /** Adding one evaluation to a round: a found assignment wins only with a strictly higher value. */
  lemma PickSnoc(cands: seq<Option<Assignment>>, c: Option<Assignment>, projects: seq<Project>)
    requires Weighted(Present(cands), projects)
    requires c.Some? ==> c.value.project < |projects| && Weight(projects[c.value.project]) > 0
    ensures Weighted(Present(cands + [c]), projects)
    ensures Pick(cands + [c], projects) ==
              var best := Pick(cands, projects);
              if c.Some? && (best.None? || Better(c.value, best.value, projects)) then c else best
  {
    PresentSnoc(cands, c);
    if c.Some? && |Present(cands)| > 0 {
      MaxBySnoc(Present(cands), c.value, projects);
    }
  }

  /** `cands[k]` is the evaluation of project `remaining[k]` on this arena and index, for every `k` in `cands`. */
  ghost predicate Evaluations(idx: Index, people: seq<Contributor>, projects: seq<Project>, remaining: seq<nat>,
                              cands: seq<Option<Assignment>>)
    decreases |cands|
  {
    |cands| <= |remaining| &&
    (|cands| > 0 ==>
      var n := |cands| - 1;
      Evaluations(idx, people, projects, remaining, cands[..n]) &&
      remaining[n] < |projects| && Evaluated(idx, people, projects, remaining[n], cands[n]))
  }

  lemma EvaluationsSnoc(idx: Index, people: seq<Contributor>, projects: seq<Project>, remaining: seq<nat>,
                        cands: seq<Option<Assignment>>, c: Option<Assignment>)
    requires Evaluations(idx, people, projects, remaining, cands) && |cands| < |remaining|
    requires remaining[|cands|] < |projects| && Evaluated(idx, people, projects, remaining[|cands|], c)
    ensures Evaluations(idx, people, projects, remaining, cands + [c])
  {
    var extended := cands + [c];
    assert extended[..|cands|] == cands;
    assert extended[|cands|] == c;
  }

  /** Each entry of a round of evaluations is the evaluation of its project. */
  lemma {:induction false} EvaluationsAt(idx: Index, people: seq<Contributor>, projects: seq<Project>,
                                         remaining: seq<nat>, cands: seq<Option<Assignment>>, k: nat)
    requires Evaluations(idx, people, projects, remaining, cands) && k < |cands|
    ensures remaining[k] < |projects| && Evaluated(idx, people, projects, remaining[k], cands[k])
    decreases |cands|
  {
    var n := |cands| - 1;
    var prefix := cands[..n];
    assert Evaluations(idx, people, projects, remaining, prefix);
    if k < n {
      EvaluationsAt(idx, people, projects, remaining, prefix, k);
      assert prefix[k] == cands[k];
    }
  }

  /** Adding the evaluation of the next remaining project to a round keeps its facts and updates the pick. */
  lemma RoundStep(idx: Index, people: seq<Contributor>, projects: seq<Project>, remaining: seq<nat>,
                  cands: seq<Option<Assignment>>, c: Option<Assignment>)
    requires WellFormedProjects(projects) && |cands| < |remaining| && remaining[|cands|] < |projects|
    requires Evaluations(idx, people, projects, remaining, cands) && Weighted(Present(cands), projects)
    requires Evaluated(idx, people, projects, remaining[|cands|], c)
    ensures Evaluations(idx, people, projects, remaining, cands + [c]) && Weighted(Present(cands + [c]), projects)
    ensures Pick(cands + [c], projects) ==
              var best := Pick(cands, projects);
              if c.Some? && (best.None? || Better(c.value, best.value, projects)) then c else best
  {
    EvaluationsSnoc(idx, people, projects, remaining, cands, c);
    PickSnoc(cands, c, projects);
  }

  /** No remaining project can be staffed: the assembled team of each keeps a hole. */
  ghost predicate Unstaffable(idx: Index, people: seq<Contributor>, projects: seq<Project>, remaining: seq<nat>) {
    forall k :: 0 <= k < |remaining| ==>
      remaining[k] < |projects| && AssembleTeam(idx, people, projects[remaining[k]].requiredSkills).None?
  }

  /** A round of evaluations that picks nothing found every remaining project unstaffable. */
  lemma NoPickUnstaffable(idx: Index, people: seq<Contributor>, projects: seq<Project>, remaining: seq<nat>,
                          cands: seq<Option<Assignment>>)
    requires |cands| == |remaining| && Evaluations(idx, people, projects, remaining, cands)
    requires Weighted(Present(cands), projects) && Pick(cands, projects).None?
    ensures Unstaffable(idx, people, projects, remaining)
  {
    forall k | 0 <= k < |remaining|
      ensures remaining[k] < |projects| && AssembleTeam(idx, people, projects[remaining[k]].requiredSkills).None?
    {
      EvaluationsAt(idx, people, projects, remaining, cands, k);
      assert cands[k].None?;
    }
  }

  /** The evaluation of one remaining project, as a round of selection sees it. */
  method Evaluate(idx: Index, people: seq<Contributor>, projects: seq<Project>, pi: nat) returns (c: Option<Assignment>)
    requires WellFormedIndex(idx) && Consistent(idx, people) && WellFormedProjects(projects) && pi < |projects|
    ensures Evaluated(idx, people, projects, pi, c)
  {
    var r, _, _ := FindBestAssignmentFor(idx, people, projects, pi);
    c := r;
  }

  /**
   * One round of solve's selection: every remaining project is evaluated in
   * order and the assignment with the highest business value wins, the first
   * one on ties. `candidates[k]` is the evaluation of `remaining[k]`.
   */
  method PickBest(idx: Index, people: seq<Contributor>, projects: seq<Project>, remaining: seq<nat>)
    returns (best: Option<Assignment>, ghost candidates: seq<Option<Assignment>>)
    requires WellFormedIndex(idx) && Consistent(idx, people) && WellFormedProjects(projects)
    requires forall k :: 0 <= k < |remaining| ==> remaining[k] < |projects|
    ensures |candidates| == |remaining| && Evaluations(idx, people, projects, remaining, candidates)
    ensures Weighted(Present(candidates), projects) && best == Pick(candidates, projects)
    ensures best.Some? ==> best.value.project in remaining && Committable(people, projects, best.value)
  {
    best := None;
    candidates := [];
    for k := 0 to |remaining|
      invariant |candidates| == k && Evaluations(idx, people, projects, remaining, candidates)
      invariant Weighted(Present(candidates), projects) && best == Pick(candidates, projects)
    {
      var c := Evaluate(idx, people, projects, remaining[k]);
      RoundStep(idx, people, projects, remaining, candidates, c);
      if c.Some? && (best.None? || Better(c.value, best.value, projects)) {
        best := c;
      }
      candidates := candidates + [c];
    }
    if best.Some? {
      PickedFromRemaining(idx, people, projects, remaining, candidates);
    }
  }

  // ---------------------------------------------------------------------------
  // The state change after a committed project

  /**
   * A team member's skills after the project: the required skill rises by one
   * level when it was at or below the minimum, whether the member was a
   * novice or merely qualified; every other skill stays.
   */
  function Promote(skills: seq<Skill>, req: SkillRequirement): (r: seq<Skill>)
    ensures |r| == |skills| && forall j :: 0 <= j < |r| ==> r[j].name == skills[j].name
    ensures forall t :: t != req.skillName ==> LevelIn(r, t) == LevelIn(skills, t)
    ensures LevelIn(skills, req.skillName).None? ==> r == skills
    ensures LevelIn(skills, req.skillName).Some? ==>
              var v := LevelIn(skills, req.skillName).value;
              LevelIn(r, req.skillName) == Some(if v <= req.minLevel then v + 1 else v) &&
              (v > req.minLevel ==> r == skills)
  {
    match LevelIn(skills, req.skillName)
    case None => skills
    case Some(v) =>
      if v <= req.minLevel then
        assert forall t :: LevelIn(SetLevel(skills, req.skillName, v + 1), t)
                           == if t == req.skillName then Some(v + 1) else LevelIn(skills, t) by {
          forall t ensures LevelIn(SetLevel(skills, req.skillName, v + 1), t)
                           == if t == req.skillName then Some(v + 1) else LevelIn(skills, t) {
            LevelInSetLevel(skills, req.skillName, v + 1, t);
          }
        }
        SetLevel(skills, req.skillName, v + 1)
      else skills
  }

  /** A team member after the project: promoted in the slot's skill, busy until `day`. */
  function Finish(c: Contributor, req: SkillRequirement, day: int): Contributor {
    Contributor(c.name, Promote(c.skills, req), day)
  }

  /** The arena after the project, slot by slot in order. */
  function ApplyTeam(ps: seq<Contributor>, devs: seq<nat>, reqs: seq<SkillRequirement>, day: int): (r: seq<Contributor>)
    requires ValidIds(ps, devs) && |reqs| == |devs|
    ensures |r| == |ps|
  {
    if |devs| == 0 then ps
    else
      var n := |devs| - 1;
      var p := ApplyTeam(ps, devs[..n], reqs[..n], day);
      p[devs[n] := Finish(p[devs[n]], reqs[n], day)]
  }

  /**
   * The arena once the team of `a` has done its project: each member finishes
   * their slot, busy until the team's common start day plus the duration.
   */
  ghost function Committed(people: seq<Contributor>, projects: seq<Project>, a: Assignment): (r: seq<Contributor>)
    requires a.project < |projects| && |a.contributors| > 0 && ValidIds(people, a.contributors)
    requires |projects[a.project].requiredSkills| == |a.contributors|
    ensures |r| == |people|
  {
    ApplyTeam(people, a.contributors, projects[a.project].requiredSkills,
              MaxDay(people, a.contributors) + projects[a.project].duration)
  }

  lemma CommittedAt(people: seq<Contributor>, projects: seq<Project>, a: Assignment, day: int)
    requires a.project < |projects| && |a.contributors| > 0 && ValidIds(people, a.contributors)
    requires |projects[a.project].requiredSkills| == |a.contributors|
    requires day == MaxDay(people, a.contributors) + projects[a.project].duration
    ensures Committed(people, projects, a) == ApplyTeam(people, a.contributors, projects[a.project].requiredSkills, day)
  {
  }

  lemma ApplyTeamSnoc(ps: seq<Contributor>, devs: seq<nat>, reqs: seq<SkillRequirement>, day: int, i: nat)
    requires ValidIds(ps, devs) && |reqs| == |devs| && i < |devs|
    ensures ValidIds(ps, devs[..i]) && ValidIds(ps, devs[..i + 1])
    ensures var p := ApplyTeam(ps, devs[..i], reqs[..i], day);
            ApplyTeam(ps, devs[..i + 1], reqs[..i + 1], day) == p[devs[i] := Finish(p[devs[i]], reqs[i], day)]
  {
    assert devs[..i + 1][..i] == devs[..i];
    assert reqs[..i + 1][..i] == reqs[..i];
  }

  /** Contributors outside the team are untouched. */
  lemma {:induction false} ApplyTeamOther(ps: seq<Contributor>, devs: seq<nat>, reqs: seq<SkillRequirement>, day: int, id: nat)
    requires ValidIds(ps, devs) && |reqs| == |devs| && id < |ps| && id !in devs
    ensures ApplyTeam(ps, devs, reqs, day)[id] == ps[id]
  {
    if |devs| > 0 {
      var n := |devs| - 1;
      assert id != devs[n];
      assert id !in devs[..n];
      ApplyTeamOther(ps, devs[..n], reqs[..n], day, id);
    }
  }

  /** The member of slot `k` ends up finished for the requirement of slot `k`. */
  lemma {:induction false} ApplyTeamMember(ps: seq<Contributor>, devs: seq<nat>, reqs: seq<SkillRequirement>, day: int, k: nat)
    requires ValidIds(ps, devs) && |reqs| == |devs| && NoDup(devs) && k < |devs|
    ensures ApplyTeam(ps, devs, reqs, day)[devs[k]] == Finish(ps[devs[k]], reqs[k], day)
  {
    var n := |devs| - 1;
    if k == n {
      assert devs[k] !in devs[..n];
      ApplyTeamOther(ps, devs[..n], reqs[..n], day, devs[k]);
    } else {
      assert devs[..n][k] == devs[k] && reqs[..n][k] == reqs[k];
      ApplyTeamMember(ps, devs[..n], reqs[..n], day, k);
    }
  }

  /** Slot `k`'s member after the update is that member finished for the slot's requirement. */
  lemma CommittedMember(ps: seq<Contributor>, projects: seq<Project>, a: Assignment, k: nat)
    requires a.project < |projects| && |a.contributors| == |projects[a.project].requiredSkills| > 0
    requires NoDup(a.contributors) && ValidIds(ps, a.contributors) && k < |a.contributors|
    ensures Committed(ps, projects, a)[a.contributors[k]] ==
      Finish(ps[a.contributors[k]], projects[a.project].requiredSkills[k],
             MaxDay(ps, a.contributors) + projects[a.project].duration)
  {
    var p := projects[a.project];
    var day := MaxDay(ps, a.contributors) + p.duration;
    CommittedAt(ps, projects, a, day);
    ApplyTeamMember(ps, a.contributors, p.requiredSkills, day, k);
  }

  /**
   * The update rule for one slot: the member's level in the slot's skill rises
   * by exactly one when it was at most the minimum and stays otherwise, and no
   * other skill changes.
   */
  lemma SlotAfterUpdate(ps: seq<Contributor>, projects: seq<Project>, a: Assignment, k: nat)
    requires a.project < |projects| && |a.contributors| == |projects[a.project].requiredSkills| > 0
    requires NoDup(a.contributors) && ValidIds(ps, a.contributors) && k < |a.contributors|
    requires LevelIn(ps[a.contributors[k]].skills, projects[a.project].requiredSkills[k].skillName).Some?
    ensures var req := projects[a.project].requiredSkills[k];
      var before := ps[a.contributors[k]];
      var after := Committed(ps, projects, a)[a.contributors[k]];
      var v := LevelIn(before.skills, req.skillName).value;
      LevelIn(after.skills, req.skillName) == Some(if v <= req.minLevel then v + 1 else v) &&
      forall t :: t != req.skillName ==> LevelIn(after.skills, t) == LevelIn(before.skills, t)
  {
    var p := projects[a.project];
    var before := ps[a.contributors[k]];
    var day := MaxDay(ps, a.contributors) + p.duration;
    CommittedMember(ps, projects, a, k);
    FinishRule(before, p.requiredSkills[k], day);
    assert Committed(ps, projects, a)[a.contributors[k]].skills == Promote(before.skills, p.requiredSkills[k]);
  }

  /**
   * Every member of the team keeps their name and is busy until the team's
   * start day plus the duration, which never moves them earlier.
   */
  lemma SlotBusyUntil(ps: seq<Contributor>, projects: seq<Project>, a: Assignment, k: nat)
    requires a.project < |projects| && |a.contributors| == |projects[a.project].requiredSkills| > 0
    requires NoDup(a.contributors) && ValidIds(ps, a.contributors) && k < |a.contributors|
    ensures var p := projects[a.project];
      var before := ps[a.contributors[k]];
      var after := Committed(ps, projects, a)[a.contributors[k]];
      after.name == before.name && after.dayAvailable == MaxDay(ps, a.contributors) + p.duration &&
      (p.duration >= 0 ==> after.dayAvailable >= before.dayAvailable)
  {
    CommittedMember(ps, projects, a, k);
    assert ps[a.contributors[k]].dayAvailable <= MaxDay(ps, a.contributors);
  }

  /** A staffed slot's member holds the slot's skill. */
  lemma SlotHeld(ps: seq<Contributor>, reqs: seq<SkillRequirement>, devs: seq<nat>, k: nat)
    requires |devs| == |reqs| && Staffed(ps, reqs, devs) && ValidIds(ps, devs) && k < |devs|
    ensures LevelIn(ps[devs[k]].skills, reqs[k].skillName).Some?
  {
    assert Qualified(ps, devs[k], reqs[k]) || Novice(ps, devs[k], reqs[k]);
  }

  /** Finishing a slot raises the slot's skill by one level at most, and leaves the others. */
  lemma FinishRule(c: Contributor, req: SkillRequirement, day: int)
    requires LevelIn(c.skills, req.skillName).Some?
    ensures var after := Finish(c, req, day);
      var v := LevelIn(c.skills, req.skillName).value;
      LevelIn(after.skills, req.skillName) == Some(if v <= req.minLevel then v + 1 else v) &&
      forall t :: t != req.skillName ==> LevelIn(after.skills, t) == LevelIn(c.skills, t)
  {
  }

  /** The skill names a project requires. */
  function SkillsOf(reqs: seq<SkillRequirement>): set<SkillName> {
    set k | 0 <= k < |reqs| :: reqs[k].skillName
  }

  function ProjectsOf(assignments: seq<Assignment>): (r: seq<nat>)
    ensures |r| == |assignments| && forall k :: 0 <= k < |r| ==> r[k] == assignments[k].project
  {
    seq(|assignments|, k requires 0 <= k < |assignments| => assignments[k].project)
  }

  /** Before its own slot is processed, a team member is as it was before the update. */
  lemma UpdateSlotBefore(people0: seq<Contributor>, devs: seq<nat>, reqs: seq<SkillRequirement>, day: int, i: nat)
    requires ValidIds(people0, devs) && |reqs| == |devs| && NoDup(devs) && i < |devs|
    requires Staffed(people0, reqs, devs)
    ensures ValidIds(people0, devs[..i])
    ensures ApplyTeam(people0, devs[..i], reqs[..i], day)[devs[i]] == people0[devs[i]]
    ensures LevelIn(people0[devs[i]].skills, reqs[i].skillName).Some?
  {
    assert devs[i] !in devs[..i];
    ApplyTeamOther(people0, devs[..i], reqs[..i], day, devs[i]);
    assert Qualified(people0, devs[i], reqs[i]) || Novice(people0, devs[i], reqs[i]);
  }

  /** Finishing one member keeps the arena well formed and the index consistent with it. */
  lemma UpdateSlotIndex(index: Index, people: seq<Contributor>, d: nat, req: SkillRequirement, day: int)
    requires WellFormedPeople(people) && WellFormedIndex(index) && Consistent(index, people)
    requires d < |people| && LevelIn(people[d].skills, req.skillName).Some?
    ensures var lvl := LevelIn(people[d].skills, req.skillName).value;
      var people' := people[d := Finish(people[d], req, day)];
      var index' := if lvl <= req.minLevel then index[req.skillName := MoveUp(Table(index, req.skillName), d, lvl)] else index;
      WellFormedPeople(people') && WellFormedIndex(index') && Consistent(index', people')
  {
    var lvl := LevelIn(people[d].skills, req.skillName).value;
    var people' := people[d := Finish(people[d], req, day)];
    assert UniqueSkillNames(people'[d].skills);
    if lvl <= req.minLevel {
      MoveUpConsistent(index, people, people', d, req.skillName, lvl);
    } else {
      ConsistentSameSkills(index, people, people');
    }
  }

  /** The index after member `d` finishes slot `req`: promoted members move one bucket up. */
  function StepIndex(idx: Index, ps: seq<Contributor>, d: nat, req: SkillRequirement): (r: Index)
    requires WellFormedIndex(idx) && d < |ps| && LevelIn(ps[d].skills, req.skillName).Some?
    ensures forall s :: s != req.skillName ==> Table(r, s) == Table(idx, s)
  {
    var lvl := LevelIn(ps[d].skills, req.skillName).value;
    if lvl <= req.minLevel then idx[req.skillName := MoveUp(Table(idx, req.skillName), d, lvl)] else idx
  }

  /**
   * The index after the slot loop's first `n` slots: a member at or below the
   * slot's minimum level leaves their bucket and joins the end of the bucket
   * one level up; levels are those before the project, which a member keeps
   * until their own slot since nobody fills two slots.
   */
  function MovedIndex(idx0: Index, ps0: seq<Contributor>, devs: seq<nat>, reqs: seq<SkillRequirement>, n: nat): (r: Index)
    requires AscendingIndex(idx0) && ValidIds(ps0, devs) && |reqs| == |devs| && n <= |devs|
    ensures AscendingIndex(r)
  {
    if n == 0 then idx0
    else
      var idx := MovedIndex(idx0, ps0, devs, reqs, n - 1);
      var d, req := devs[n - 1], reqs[n - 1];
      match LevelIn(ps0[d].skills, req.skillName)
        case None => idx
        case Some(lvl) =>
          if lvl <= req.minLevel then idx[req.skillName := MoveUp(Table(idx, req.skillName), d, lvl)] else idx
  }

  /** The loop's step for slot `i` is the next move, as long as the member is still as before the project. */
  lemma MovedIndexStep(idx0: Index, ps0: seq<Contributor>, devs: seq<nat>, reqs: seq<SkillRequirement>, i: nat,
                       idx: Index, ps: seq<Contributor>)
    requires AscendingIndex(idx0) && ValidIds(ps0, devs) && |reqs| == |devs| && i < |devs|
    requires WellFormedIndex(idx) && idx == MovedIndex(idx0, ps0, devs, reqs, i)
    requires devs[i] < |ps| && ps[devs[i]] == ps0[devs[i]] && LevelIn(ps[devs[i]].skills, reqs[i].skillName).Some?
    ensures StepIndex(idx, ps, devs[i], reqs[i]) == MovedIndex(idx0, ps0, devs, reqs, i + 1)
  {
  }

  /**
   * `idx` is `idx0` with every bucket listed in `keys` stably sorted by `key`
   * and every other bucket as it was.
   */
  ghost predicate ResortedFrom(idx0: Index, idx: Index, keys: seq<(SkillName, int)>, key: nat -> int) {
    forall s, l :: MembersOf(idx, s, l) == if (s, l) in keys then SortBy(MembersOf(idx0, s, l), key) else MembersOf(idx0, s, l)
  }

  /** Re-sorting the bucket of `keys[j]` extends the re-sorted list by that key; a bucket sorted twice stays sorted once. */
  lemma ResortedFromStep(idx0: Index, idx: Index, keys: seq<(SkillName, int)>, j: nat, key: nat -> int)
    requires j < |keys| && WellFormedIndex(idx) && ResortedFrom(idx0, idx, keys[..j], key)
    ensures ResortedFrom(idx0, idx[keys[j].0 := SetBucket(Table(idx, keys[j].0), keys[j].1,
                                                         SortBy(MembersOf(idx, keys[j].0, keys[j].1), key))], keys[..j + 1], key)
  {
    var s, l := keys[j].0, keys[j].1;
    var idx' := idx[s := SetBucket(Table(idx, s), l, SortBy(MembersOf(idx, s, l), key))];
    forall t, m ensures MembersOf(idx', t, m) ==
      if (t, m) in keys[..j + 1] then SortBy(MembersOf(idx0, t, m), key) else MembersOf(idx0, t, m)
    {
      ResortedFromAt(idx0, idx, keys, j, key, t, m);
    }
  }

  /** ResortedFromStep for one bucket. */
  lemma ResortedFromAt(idx0: Index, idx: Index, keys: seq<(SkillName, int)>, j: nat, key: nat -> int, t: SkillName, m: int)
    requires j < |keys| && WellFormedIndex(idx)
    requires MembersOf(idx, t, m) == if (t, m) in keys[..j] then SortBy(MembersOf(idx0, t, m), key) else MembersOf(idx0, t, m)
    ensures var s, l := keys[j].0, keys[j].1;
      var idx' := idx[s := SetBucket(Table(idx, s), l, SortBy(MembersOf(idx, s, l), key))];
      MembersOf(idx', t, m) == if (t, m) in keys[..j + 1] then SortBy(MembersOf(idx0, t, m), key) else MembersOf(idx0, t, m)
  {
    var s, l := keys[j].0, keys[j].1;
    TableWellFormed(idx, s);
    assert keys[..j + 1] == keys[..j] + [keys[j]];
    if t == s {
      SetBucketMembers(Table(idx, s), l, SortBy(MembersOf(idx, s, l), key), m);
      if m == l && (t, m) in keys[..j] {
        SortByIdempotent(MembersOf(idx0, t, m), key);
      }
    }
  }

  /** Per slot, the skill and the level its member holds it at in `ps`. */
  function SlotBuckets(ps: seq<Contributor>, devs: seq<nat>, reqs: seq<SkillRequirement>): (r: seq<(SkillName, int)>)
    requires ValidIds(ps, devs) && |reqs| == |devs|
    ensures |r| == |devs|
  {
    seq(|devs|, k requires 0 <= k < |devs| =>
      (reqs[k].skillName, match LevelIn(ps[devs[k]].skills, reqs[k].skillName) case Some(l) => l case None => 0))
  }

  /** Keys that name every slot's bucket are the slot buckets. */
  lemma ResortKeysAreSlotBuckets(ps: seq<Contributor>, devs: seq<nat>, reqs: seq<SkillRequirement>,
                                 keys: seq<(SkillName, int)>)
    requires ValidIds(ps, devs) && |reqs| == |devs| == |keys| && ResortKeys(ps, devs, reqs, keys, |keys|)
    ensures keys == SlotBuckets(ps, devs, reqs)
  {
    var r := SlotBuckets(ps, devs, reqs);
    forall k | 0 <= k < |keys| ensures keys[k] == r[k] {
      assert LevelIn(ps[devs[k]].skills, reqs[k].skillName) == Some(keys[k].1);
    }
  }

  /**
   * `idx` is the index after a team's update: the slot loop's moves, then
   * every slot's bucket stably re-sorted by the ranks after the project.
   */
  ghost predicate IndexUpdated(idx0: Index, ps0: seq<Contributor>, devs: seq<nat>, reqs: seq<SkillRequirement>, day: int,
                               idx: Index)
    requires WellFormedIndex(idx0) && ValidIds(ps0, devs) && |reqs| == |devs|
  {
    WellFormedAscending(idx0);
    var ps := ApplyTeam(ps0, devs, reqs, day);
    ResortedFrom(MovedIndex(idx0, ps0, devs, reqs, |devs|), idx, SlotBuckets(ps, devs, reqs), RankKey(ps))
  }

  /** The first `i` keys name, for each slot, the bucket its member sits in within `ps`. */
  predicate ResortKeys(ps: seq<Contributor>, devs: seq<nat>, reqs: seq<SkillRequirement>, keys: seq<(SkillName, int)>, i: nat)
    requires ValidIds(ps, devs) && |reqs| == |devs| && i <= |keys| && i <= |devs|
  {
    forall k :: 0 <= k < i ==>
      keys[k].0 == reqs[k].skillName && LevelIn(ps[devs[k]].skills, reqs[k].skillName) == Some(keys[k].1)
  }

  /** Finishing slot `i` keeps the earlier keys right and adds the key of slot `i`. */
  lemma ResortKeysStep(ps: seq<Contributor>, devs: seq<nat>, reqs: seq<SkillRequirement>,
                       keys: seq<(SkillName, int)>, i: nat, day: int)
    requires ValidIds(ps, devs) && |reqs| == |devs| && NoDup(devs) && i == |keys| && i < |devs|
    requires ResortKeys(ps, devs, reqs, keys, i)
    requires LevelIn(ps[devs[i]].skills, reqs[i].skillName).Some?
    ensures var lvl := LevelIn(ps[devs[i]].skills, reqs[i].skillName).value;
      var ps' := ps[devs[i] := Finish(ps[devs[i]], reqs[i], day)];
      var keys' := keys + [(reqs[i].skillName, if lvl <= reqs[i].minLevel then lvl + 1 else lvl)];
      ValidIds(ps', devs) && ResortKeys(ps', devs, reqs, keys', i + 1)
  {
    var d := devs[i];
    forall k | 0 <= k < i ensures devs[k] != d {
      assert devs[k] in devs[..i];
    }
  }

  /** The bucket member `d` sits in after finishing slot `req`. */
  function NewBucket(ps: seq<Contributor>, d: nat, req: SkillRequirement): (SkillName, int)
    requires d < |ps| && LevelIn(ps[d].skills, req.skillName).Some?
  {
    var lvl := LevelIn(ps[d].skills, req.skillName).value;
    (req.skillName, if lvl <= req.minLevel then lvl + 1 else lvl)
  }

  /** The state of the slot loop after `i` slots. */
  ghost predicate CommitInvariant(idx0: Index, ps0: seq<Contributor>, devs: seq<nat>, reqs: seq<SkillRequirement>,
                                  day: int, i: nat, idx: Index, ps: seq<Contributor>, keys: seq<(SkillName, int)>)
    requires ValidIds(ps0, devs) && |reqs| == |devs| && i <= |devs|
  {
    WellFormedPeople(ps) && WellFormedIndex(idx) && Consistent(idx, ps) &&
    ValidIds(ps0, devs[..i]) && ps == ApplyTeam(ps0, devs[..i], reqs[..i], day) &&
    |ps| == |ps0| && |keys| == i && ResortKeys(ps, devs, reqs, keys, i) &&
    forall s :: s !in SkillsOf(reqs) ==> Table(idx, s) == Table(idx0, s)
  }

  /** Finishing one member keeps the index consistent with the arena (StepIndex form). */
  lemma StepIndexConsistent(idx: Index, ps: seq<Contributor>, d: nat, req: SkillRequirement, day: int)
    requires WellFormedPeople(ps) && WellFormedIndex(idx) && Consistent(idx, ps)
    requires d < |ps| && LevelIn(ps[d].skills, req.skillName).Some?
    ensures var ps' := ps[d := Finish(ps[d], req, day)];
      WellFormedPeople(ps') && WellFormedIndex(StepIndex(idx, ps, d, req)) && Consistent(StepIndex(idx, ps, d, req), ps')
  {
    UpdateSlotIndex(idx, ps, d, req, day);
  }

  /** Finishing slot `i` extends the arena update and the list of buckets by that slot. */
  lemma StepPeople(ps0: seq<Contributor>, devs: seq<nat>, reqs: seq<SkillRequirement>,
                   day: int, i: nat, ps: seq<Contributor>, keys: seq<(SkillName, int)>)
    requires ValidIds(ps0, devs) && |reqs| == |devs| && NoDup(devs) && Staffed(ps0, reqs, devs) && i < |devs|
    requires ps == ApplyTeam(ps0, devs[..i], reqs[..i], day) && |keys| == i && ResortKeys(ps, devs, reqs, keys, i)
    ensures devs[i] < |ps| && LevelIn(ps[devs[i]].skills, reqs[i].skillName).Some? && ps[devs[i]] == ps0[devs[i]]
    ensures var ps' := ps[devs[i] := Finish(ps[devs[i]], reqs[i], day)];
      ValidIds(ps0, devs[..i + 1]) && ps' == ApplyTeam(ps0, devs[..i + 1], reqs[..i + 1], day) && |ps'| == |ps0| &&
      ResortKeys(ps', devs, reqs, keys + [NewBucket(ps, devs[i], reqs[i])], i + 1)
  {
    UpdateSlotBefore(ps0, devs, reqs, day, i);
    ApplyTeamSnoc(ps0, devs, reqs, day, i);
    ResortKeysStep(ps, devs, reqs, keys, i, day);
  }

  /** One slot of the loop keeps its invariant. */
  lemma CommitStep(idx0: Index, ps0: seq<Contributor>, devs: seq<nat>, reqs: seq<SkillRequirement>,
                   day: int, i: nat, idx: Index, ps: seq<Contributor>, keys: seq<(SkillName, int)>)
    requires ValidIds(ps0, devs) && |reqs| == |devs| && NoDup(devs) && Staffed(ps0, reqs, devs) && i < |devs|
    requires CommitInvariant(idx0, ps0, devs, reqs, day, i, idx, ps, keys)
    ensures devs[i] < |ps| && LevelIn(ps[devs[i]].skills, reqs[i].skillName).Some? && ps[devs[i]] == ps0[devs[i]]
    ensures WellFormedIndex(idx)
    ensures CommitInvariant(idx0, ps0, devs, reqs, day, i + 1, StepIndex(idx, ps, devs[i], reqs[i]),
                            ps[devs[i] := Finish(ps[devs[i]], reqs[i], day)],
                            keys + [NewBucket(ps, devs[i], reqs[i])])
  {
    StepPeople(ps0, devs, reqs, day, i, ps, keys);
    StepIndexConsistent(idx, ps, devs[i], reqs[i], day);
    assert reqs[i].skillName in SkillsOf(reqs);
  }

  /**
   * The slot loop of updateSkillsAndAvailability: each member's level in the
   * slot's skill is bumped (moving them one bucket up in the index), and every
   * member becomes busy until `day`. Returns, per slot, the bucket the member
   * now sits in (the lists to re-sort).
   */
  method CommitSlots(idx0: Index, ps0: seq<Contributor>, devs: seq<nat>, reqs: seq<SkillRequirement>, day: int)
    returns (idx: Index, ps: seq<Contributor>, toResort: seq<(SkillName, int)>)
    requires WellFormedPeople(ps0) && WellFormedIndex(idx0) && Consistent(idx0, ps0)
    requires ValidIds(ps0, devs) && |reqs| == |devs| && NoDup(devs) && Staffed(ps0, reqs, devs)
    ensures WellFormedPeople(ps) && WellFormedIndex(idx) && Consistent(idx, ps)
    ensures ps == ApplyTeam(ps0, devs, reqs, day)
    ensures |toResort| == |devs| && ResortKeys(ps, devs, reqs, toResort, |devs|)
    ensures OtherTablesKept(idx0, idx, reqs)
    ensures idx == MovedIndex(idx0, ps0, devs, reqs, |devs|)
  {
    ps, idx := ps0, idx0;
    toResort := [];
    WellFormedAscending(idx0);
    assert devs[..0] == [] && reqs[..0] == [];
    for i := 0 to |devs|
      invariant CommitInvariant(idx0, ps0, devs, reqs, day, i, idx, ps, toResort)
      invariant idx == MovedIndex(idx0, ps0, devs, reqs, i)
    {
      var d, req := devs[i], reqs[i];
      CommitStep(idx0, ps0, devs, reqs, day, i, idx, ps, toResort);
      MovedIndexStep(idx0, ps0, devs, reqs, i, idx, ps);
      idx := StepIndex(idx, ps, d, req);
      toResort := toResort + [NewBucket(ps, d, req)];
      ps := ps[d := Finish(ps[d], req, day)];
    }
    assert devs[..|devs|] == devs && reqs[..|devs|] == reqs;
  }

  /** The listed buckets up to `j` are sorted by `key`. */
  ghost predicate SortedUpTo(idx: Index, keys: seq<(SkillName, int)>, j: nat, key: nat -> int)
    requires j <= |keys|
  {
    forall k :: 0 <= k < j ==> SortedBy(MembersOf(idx, keys[k].0, keys[k].1), key)
  }

  /** The skills named by the first `j` keys. */
  function KeySkills(keys: seq<(SkillName, int)>, j: nat): set<SkillName>
    requires j <= |keys|
  {
    set k | 0 <= k < j :: keys[k].0
  }

  /** Only the tables of listed skills differ from `idx0`. */
  ghost predicate ChangedOnlyAt(idx0: Index, idx: Index, keys: seq<(SkillName, int)>, j: nat)
    requires j <= |keys|
  {
    forall s :: s !in KeySkills(keys, j) ==> Table(idx, s) == Table(idx0, s)
  }


  /** Re-sorting bucket `keys[j]` keeps the earlier listed buckets sorted. */
  lemma ResortKeepsSorted(idx: Index, keys: seq<(SkillName, int)>, j: nat, key: nat -> int, ms: seq<nat>)
    requires j < |keys| && WellFormedIndex(idx) && SortedUpTo(idx, keys, j, key) && SortedBy(ms, key)
    ensures SortedUpTo(idx[keys[j].0 := SetBucket(Table(idx, keys[j].0), keys[j].1, ms)], keys, j + 1, key)
  {
    var s := keys[j].0;
    TableWellFormed(idx, s);
    var idx' := idx[s := SetBucket(Table(idx, s), keys[j].1, ms)];
    forall k | 0 <= k <= j ensures SortedBy(MembersOf(idx', keys[k].0, keys[k].1), key) {
      if keys[k].0 == s {
        SetBucketMembers(Table(idx, s), keys[j].1, ms, keys[k].1);
      }
    }
  }

  /** Re-sorting a bucket of skill `keys[j].0` changes no other skill's table. */
  lemma ResortKeepsFrame(idx0: Index, idx: Index, keys: seq<(SkillName, int)>, j: nat, levels: Levels)
    requires j < |keys| && ChangedOnlyAt(idx0, idx, keys, j)
    ensures ChangedOnlyAt(idx0, idx[keys[j].0 := levels], keys, j + 1)
  {
    assert KeySkills(keys, j + 1) == KeySkills(keys, j) + {keys[j].0};
  }

  /** The state of the re-sorting loop after `j` keys. */
  ghost predicate ResortInvariant(idx0: Index, idx: Index, ps: seq<Contributor>, keys: seq<(SkillName, int)>, j: nat)
    requires j <= |keys|
  {
    WellFormedIndex(idx) && Consistent(idx, ps) &&
    SortedUpTo(idx, keys, j, RankKey(ps)) && ChangedOnlyAt(idx0, idx, keys, j)
  }

  /** Re-sorting the bucket of `keys[j]` keeps the loop's invariant. */
  lemma ResortStep(idx0: Index, idx: Index, ps: seq<Contributor>, keys: seq<(SkillName, int)>, j: nat)
    requires j < |keys| && ResortInvariant(idx0, idx, ps, keys, j)
    ensures WellFormedIndex(idx)
    ensures ResortInvariant(idx0, idx[keys[j].0 := SetBucket(Table(idx, keys[j].0), keys[j].1,
                                      SortBy(MembersOf(idx, keys[j].0, keys[j].1), RankKey(ps)))], ps, keys, j + 1)
  {
    var s, l := keys[j].0, keys[j].1;
    var idx' := idx[s := SetBucket(Table(idx, s), l, SortBy(MembersOf(idx, s, l), RankKey(ps)))];
    ResortConsistent(idx, ps, s, l, RankKey(ps));
    SortBySorted(MembersOf(idx, s, l), RankKey(ps));
    ResortKeepsSorted(idx, keys, j, RankKey(ps), SortBy(MembersOf(idx, s, l), RankKey(ps)));
    ResortKeepsFrame(idx0, idx, keys, j, SetBucket(Table(idx, s), l, SortBy(MembersOf(idx, s, l), RankKey(ps))));
  }

  /** The closing loop of updateSkillsAndAvailability: each listed bucket is re-sorted by the current ranks. */
  method ResortBuckets(idx0: Index, ps: seq<Contributor>, keys: seq<(SkillName, int)>) returns (idx: Index)
    requires WellFormedIndex(idx0) && Consistent(idx0, ps)
    ensures WellFormedIndex(idx) && Consistent(idx, ps)
    ensures SortedUpTo(idx, keys, |keys|, RankKey(ps)) && ChangedOnlyAt(idx0, idx, keys, |keys|)
    ensures ResortedFrom(idx0, idx, keys, RankKey(ps))
  {
    idx := idx0;
    for j := 0 to |keys|
      invariant ResortInvariant(idx0, idx, ps, keys, j)
      invariant ResortedFrom(idx0, idx, keys[..j], RankKey(ps))
    {
      ResortStep(idx0, idx, ps, keys, j);
      ResortedFromStep(idx0, idx, keys, j, RankKey(ps));
      var s, l := keys[j].0, keys[j].1;
      idx := idx[s := SetBucket(Table(idx, s), l, SortBy(MembersOf(idx, s, l), RankKey(ps)))];
    }
    assert keys[..|keys|] == keys;
  }


  /** Every bucket a team member now sits in, for the skill of their slot, is in ascending `key`. */
  ghost predicate TeamBucketsSorted(idx: Index, ps: seq<Contributor>, devs: seq<nat>, reqs: seq<SkillRequirement>,
                                    key: nat -> int) {
    |reqs| == |devs| && ValidIds(ps, devs) &&
    forall k, l :: (0 <= k < |devs| && LevelIn(ps[devs[k]].skills, reqs[k].skillName) == Some(l)) ==>
      SortedBy(MembersOf(idx, reqs[k].skillName, l), key)
  }

  /** The tables of the skills no slot asks for are the same in both indexes. */
  ghost predicate OtherTablesKept(idx0: Index, idx: Index, reqs: seq<SkillRequirement>) {
    forall s :: s !in SkillsOf(reqs) ==> Table(idx, s) == Table(idx0, s)
  }

  /** Once the listed buckets are re-sorted, each member's bucket in its slot's skill is sorted. */
  lemma ResortedSlots(idx: Index, ps: seq<Contributor>, devs: seq<nat>, reqs: seq<SkillRequirement>,
                      keys: seq<(SkillName, int)>, key: nat -> int)
    requires ValidIds(ps, devs) && |reqs| == |devs| == |keys|
    requires ResortKeys(ps, devs, reqs, keys, |keys|) && SortedUpTo(idx, keys, |keys|, key)
    ensures TeamBucketsSorted(idx, ps, devs, reqs, key)
  {
  }

  /** Re-sorting buckets of the slots' skills leaves the tables of every other skill alone. */
  lemma ResortedFrame(idx0: Index, idx1: Index, idx: Index, reqs: seq<SkillRequirement>, keys: seq<(SkillName, int)>)
    requires |keys| == |reqs| && forall k :: 0 <= k < |keys| ==> keys[k].0 == reqs[k].skillName
    requires OtherTablesKept(idx0, idx1, reqs)
    requires ChangedOnlyAt(idx1, idx, keys, |keys|)
    ensures OtherTablesKept(idx0, idx, reqs)
  {
    assert KeySkills(keys, |keys|) <= SkillsOf(reqs);
  }

  /** updateSkillsAndAvailability on values: the slot loop, then the re-sorting of the members' buckets. */
  method CommitTeam(idx0: Index, ps0: seq<Contributor>, devs: seq<nat>, reqs: seq<SkillRequirement>, day: int)
    returns (idx: Index, ps: seq<Contributor>)
    requires WellFormedPeople(ps0) && WellFormedIndex(idx0) && Consistent(idx0, ps0)
    requires ValidIds(ps0, devs) && |reqs| == |devs| && NoDup(devs) && Staffed(ps0, reqs, devs)
    ensures WellFormedPeople(ps) && WellFormedIndex(idx) && Consistent(idx, ps)
    ensures ps == ApplyTeam(ps0, devs, reqs, day) && |ps| == |ps0|
    ensures TeamBucketsSorted(idx, ps, devs, reqs, RankKey(ps))
    ensures OtherTablesKept(idx0, idx, reqs)
    ensures IndexUpdated(idx0, ps0, devs, reqs, day, idx)
  {
    var idx1, toResort;
    idx1, ps, toResort := CommitSlots(idx0, ps0, devs, reqs, day);
    idx := ResortBuckets(idx1, ps, toResort);
    ResortKeysAreSlotBuckets(ps, devs, reqs, toResort);
    ResortedSlots(idx, ps, devs, reqs, toResort, RankKey(ps));
    ResortedFrame(idx0, idx1, idx, reqs, toResort);
  }

  /** The picked candidate is one of the remaining projects, and can be committed. */
  lemma PickedFromRemaining(idx: Index, people: seq<Contributor>, projects: seq<Project>, remaining: seq<nat>,
                            cands: seq<Option<Assignment>>)
    requires Evaluations(idx, people, projects, remaining, cands) && Weighted(Present(cands), projects)
    requires Pick(cands, projects).Some?
    ensures Pick(cands, projects).value.project in remaining
    ensures Committable(people, projects, Pick(cands, projects).value)
  {
    var a := Pick(cands, projects).value;
    var k :| 0 <= k < |cands| && cands[k] == Some(a);
    EvaluationsAt(idx, people, projects, remaining, cands, k);
  }

  /**
   * What the greedy loop has done so far: every project of `original` is
   * either still remaining or committed (never both, never twice), and every
   * committed team fills its project's slots with distinct contributors.
   */
  ghost predicate Progress(original: seq<nat>, remaining: seq<nat>, done: seq<Assignment>,
                           projects: seq<Project>, people: seq<Contributor>)
  {
    Printable(done, projects, people) && NoDup(ProjectsOf(done)) &&
    (forall p :: p in original <==> p in remaining || p in ProjectsOf(done)) &&
    (forall p :: !(p in remaining && p in ProjectsOf(done))) &&
    forall k :: 0 <= k < |done| ==>
      |done[k].contributors| == |projects[done[k].project].requiredSkills| && NoDup(done[k].contributors)
  }

  /** Committing an assignment for a remaining project moves it from the remaining list to the committed ones. */
  lemma ProgressStep(original: seq<nat>, remaining: seq<nat>, done: seq<Assignment>, a: Assignment,
                     projects: seq<Project>, people: seq<Contributor>)
    requires Progress(original, remaining, done, projects, people)
    requires NoDup(remaining) && (forall k :: 0 <= k < |remaining| ==> remaining[k] < |projects|)
    requires a.project in remaining && Committable(people, projects, a)
    ensures var r := RemoveFirst(remaining, a.project);
      NoDup(r) && (forall k :: 0 <= k < |r| ==> r[k] < |projects|) &&
      Progress(original, r, done + [a], projects, people)
  {
    var r := RemoveFirst(remaining, a.project);
    var done' := done + [a];
    RemoveFirstNoDup(remaining, a.project);
    assert ProjectsOf(done') == ProjectsOf(done) + [a.project];
    forall p ensures p in r <==> p in remaining && p != a.project {
      RemoveFirstMembers(remaining, a.project, p);
    }
    forall k | 0 <= k < |r| ensures r[k] < |projects| {
      assert r[k] in remaining;
    }
  }

  /** Progress speaks of the arena only through its size, which updates keep. */
  lemma ProgressSameArena(original: seq<nat>, remaining: seq<nat>, done: seq<Assignment>,
                          projects: seq<Project>, people: seq<Contributor>, people': seq<Contributor>)
    requires Progress(original, remaining, done, projects, people) && |people'| == |people|
    ensures Progress(original, remaining, done, projects, people')
  {
    forall k | 0 <= k < |done| ensures ValidIds(people', done[k].contributors) {
      assert ValidIds(people, done[k].contributors);
    }
  }

  /** The arena is well formed and the skill index describes it exactly. */
  ghost predicate Indexed(idx: Index, ps: seq<Contributor>) {
    WellFormedPeople(ps) && WellFormedIndex(idx) && Consistent(idx, ps)
  }

  /** `idx` is the index after the team of `a` has done its project, from `idx0` over the arena `people`. */
  ghost predicate IndexCommitted(idx0: Index, people: seq<Contributor>, projects: seq<Project>, a: Assignment, idx: Index)
    requires WellFormedIndex(idx0) && a.project < |projects| && |a.contributors| > 0 && ValidIds(people, a.contributors)
    requires |projects[a.project].requiredSkills| == |a.contributors|
  {
    IndexUpdated(idx0, people, a.contributors, projects[a.project].requiredSkills,
                 MaxDay(people, a.contributors) + projects[a.project].duration, idx)
  }

  /** The update of the arena and the index for a committed assignment, on values. */
  method CommitAssignment(idx0: Index, ps0: seq<Contributor>, projects: seq<Project>, a: Assignment)
    returns (idx: Index, ps: seq<Contributor>)
    requires Indexed(idx0, ps0) && Committable(ps0, projects, a)
    ensures Indexed(idx, ps) && ps == Committed(ps0, projects, a)
    ensures TeamBucketsSorted(idx, ps, a.contributors, projects[a.project].requiredSkills, RankKey(ps))
    ensures OtherTablesKept(idx0, idx, projects[a.project].requiredSkills)
    ensures IndexCommitted(idx0, ps0, projects, a, idx)
  {
    var devs := a.contributors;
    var reqs := projects[a.project].requiredSkills;
    var startDate := MaxDay(ps0, devs);
    var day := startDate + projects[a.project].duration;
    CommittedAt(ps0, projects, a, day);
    idx, ps := CommitTeam(idx0, ps0, devs, reqs, day);
  }

  /** The scheduler's state between two rounds: the arena, the skill index and the remaining projects. */
  datatype Snapshot = Snapshot(people: seq<Contributor>, index: Index, remaining: seq<nat>)

  /**
   * One greedy round from `s` to `next`: `cands` are the evaluations of the
   * remaining projects on `s`, `a` is their pick, and `next` is `s` with `a`
   * committed and its project taken off the remaining list.
   */
  ghost predicate GreedyStep(projects: seq<Project>, s: Snapshot, cands: seq<Option<Assignment>>, a: Assignment,
                             next: Snapshot) {
    |cands| == |s.remaining| && Evaluations(s.index, s.people, projects, s.remaining, cands) &&
    Weighted(Present(cands), projects) && Pick(cands, projects) == Some(a) &&
    a.project in s.remaining && Committable(s.people, projects, a) && WellFormedIndex(s.index) &&
    next.remaining == RemoveFirst(s.remaining, a.project) &&
    next.people == Committed(s.people, projects, a) &&
    IndexCommitted(s.index, s.people, projects, a, next.index)
  }

  /** `states[k + 1]` follows from `states[k]` by the greedy round that commits `committed[k]`, for every `k`. */
  ghost predicate GreedyRun(projects: seq<Project>, states: seq<Snapshot>, rounds: seq<seq<Option<Assignment>>>,
                            committed: seq<Assignment>) {
    |states| == |committed| + 1 && |rounds| == |committed| &&
    forall k :: 0 <= k < |committed| ==> GreedyStep(projects, states[k], rounds[k], committed[k], states[k + 1])
  }

  /** A greedy run extends by one round. */
  lemma GreedyRunSnoc(projects: seq<Project>, states: seq<Snapshot>, rounds: seq<seq<Option<Assignment>>>,
                      committed: seq<Assignment>, cands: seq<Option<Assignment>>, a: Assignment, next: Snapshot)
    requires GreedyRun(projects, states, rounds, committed)
    requires GreedyStep(projects, states[|committed|], cands, a, next)
    ensures GreedyRun(projects, states + [next], rounds + [cands], committed + [a])
  {
    var states', rounds', committed' := states + [next], rounds + [cands], committed + [a];
    forall k | 0 <= k < |committed'|
      ensures GreedyStep(projects, states'[k], rounds'[k], committed'[k], states'[k + 1])
    {
      if k < |committed| {
        assert states'[k] == states[k] && states'[k + 1] == states[k + 1];
        assert rounds'[k] == rounds[k] && committed'[k] == committed[k];
      } else {
        assert states'[k] == states[|committed|] && states'[k + 1] == next;
        assert rounds'[k] == cands && committed'[k] == a;
      }
    }
  }

  /** The scheduler's state: the arena, the skill index and the projects not yet scheduled, in input order. */
  class Problem {
    const projects: seq<Project>
    var people: seq<Contributor>
    var index: Index
    var remaining: seq<nat>

    ghost predicate Valid()
      reads this
    {
      Indexed(index, people) && WellFormedProjects(projects) && NoDup(remaining) &&
      forall k :: 0 <= k < |remaining| ==> remaining[k] < |projects|
    }

    /** Builds the skill index over the contributors; every project is still to schedule. */
    constructor(contributors: seq<Contributor>, projects: seq<Project>)
      requires WellFormedPeople(contributors) && WellFormedProjects(projects)
      ensures Valid() && this.projects == projects && people == contributors
      ensures |remaining| == |projects| && forall k :: 0 <= k < |projects| ==> remaining[k] == k
      ensures forall s, lvl :: SortedBy(MembersOf(index, s, lvl), RankKey(people))
      ensures (forall id :: 0 <= id < |contributors| ==> contributors[id].dayAvailable == 0) ==>
                forall s, lvl :: Increasing(MembersOf(index, s, lvl))
    {
      this.projects := projects;
      people := contributors;
      var idx := BuildIndex(contributors);
      index := idx;
      remaining := seq(|projects|, k => k);
    }
  
    /**
     * Commits a team (updateSkillsAndAvailability): slot by slot, a member at
     * or below the minimum level moves up one level in the index, and every
     * member becomes busy until the team's start day plus the duration; then
     * the buckets the members now sit in are re-sorted with the new ranks.
     * Buckets of the members' other skills keep their old order.
     */
    method UpdateSkillsAndAvailability(a: Assignment)
      requires Valid() && Committable(people, projects, a)
      modifies this
      ensures Valid() && remaining == old(remaining) && |people| == |old(people)|
      ensures people == Committed(old(people), projects, a)
      ensures TeamBucketsSorted(index, people, a.contributors, projects[a.project].requiredSkills, RankKey(people))
      ensures OtherTablesKept(old(index), index, projects[a.project].requiredSkills)
      ensures IndexCommitted(old(index), old(people), projects, a, index)
    {
      var idx, ps := CommitAssignment(index, people, projects, a);
      people, index := ps, idx;
      assert Indexed(index, people);
    }

    /** Takes the project of `a` off the remaining list (remainingProjects.remove). */
    method Retire(ghost original: seq<nat>, ghost done: seq<Assignment>, a: Assignment)
      requires Valid() && Progress(original, remaining, done, projects, people)
      requires a.project in remaining && Committable(people, projects, a)
      modifies this
      ensures Valid() && people == old(people) && index == old(index)
      ensures remaining == RemoveFirst(old(remaining), a.project)
      ensures Progress(original, remaining, done + [a], projects, people)
    {
      ProgressStep(original, remaining, done, a, projects, people);
      remaining := RemoveFirst(remaining, a.project);
    }

    /**
     * One round of solve: evaluate every remaining project and commit the best
     * candidate, if any. Nothing changes when no candidate exists.
     */
    method CommitBest(ghost original: seq<nat>, ghost done: seq<Assignment>)
      returns (picked: Option<Assignment>, ghost candidates: seq<Option<Assignment>>)
      requires Valid() && Progress(original, remaining, done, projects, people)
      modifies this
      ensures Valid()
      ensures |candidates| == |old(remaining)| && Evaluations(old(index), old(people), projects, old(remaining), candidates)
      ensures Weighted(Present(candidates), projects) && picked == Pick(candidates, projects)
      ensures picked.None? ==> remaining == old(remaining) && people == old(people) && index == old(index)
      ensures picked.None? ==> Unstaffable(index, people, projects, remaining)
      ensures picked.Some? ==>
        picked.value.project in old(remaining) && Committable(old(people), projects, picked.value) &&
        remaining == RemoveFirst(old(remaining), picked.value.project) &&
        people == Committed(old(people), projects, picked.value) &&
        IndexCommitted(old(index), old(people), projects, picked.value, index)
      ensures picked.Some? ==> |remaining| < |old(remaining)| && Progress(original, remaining, done + [picked.value], projects, people)
    {
      var best;
      best, candidates := PickBest(index, people, projects, remaining);
      if best.None? {
        NoPickUnstaffable(index, people, projects, remaining, candidates);
        return None, candidates;
      }
      var a := best.value;
      Retire(original, done, a);
      ghost var before, rem := people, remaining;
      UpdateSkillsAndAvailability(a);
      ProgressSameArena(original, rem, done + [a], projects, before, people);
      return Some(a), candidates;
    }

    /**
     * The greedy loop (solve): as long as projects remain, commit the best
     * candidate, and stop when no remaining project can be staffed. Returns
     * the solution file.
     */
    method Solve() returns (lines: seq<string>, ghost committed: seq<Assignment>,
                            ghost states: seq<Snapshot>, ghost rounds: seq<seq<Option<Assignment>>>)
      requires Valid()
      modifies this
      ensures Valid() && Progress(old(remaining), remaining, committed, projects, people)
      ensures GreedyRun(projects, states, rounds, committed)
      ensures states[0] == Snapshot(old(people), old(index), old(remaining))
      ensures states[|committed|] == Snapshot(people, index, remaining)
      ensures remaining == [] || Unstaffable(index, people, projects, remaining)
      ensures lines == ToSolutionLines(committed, projects, people)
    {
      var assignments: seq<Assignment> := [];
      ghost var original := remaining;
      states, rounds := [Snapshot(people, index, remaining)], [];
      while remaining != []
        invariant Valid() && Progress(original, remaining, assignments, projects, people)
        invariant GreedyRun(projects, states, rounds, assignments)
        invariant states[0] == Snapshot(old(people), old(index), original)
        invariant states[|assignments|] == Snapshot(people, index, remaining)
        decreases |remaining|
      {
        ghost var before := Snapshot(people, index, remaining);
        var picked, candidates := CommitBest(original, assignments);
        if picked.None? {
          break;
        }
        ghost var after := Snapshot(people, index, remaining);
        assert GreedyStep(projects, before, candidates, picked.value, after);
        GreedyRunSnoc(projects, states, rounds, assignments, candidates, picked.value, after);
        states, rounds := states + [after], rounds + [candidates];
        assignments := assignments + [picked.value];
      }
      lines := ToSolutionLines(assignments, projects, people);
      committed := assignments;
    }
  }
}
