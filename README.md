# Greedy project scheduler (Hash Code 2022 qualification) in Dafny

This project models the solver of the Hash Code 2022 qualification problem
("Mentorship and Teamwork"). Contributors hold skills at integer levels.
Projects need an ordered list of skill requirements, one contributor per
requirement. The solver is greedy, round after round:

- every remaining project gets a candidate team (`findBestAssignmentFor`):
  - first a direct match per requirement, from a skill index (skill → level →
    contributors, most interesting first);
  - then holes are filled with novices one level short who have a mentor on
    the team;
  - then qualified members are swapped for mentored novices where possible;
- the team is scored by its lateness-penalised score;
- the candidate with the highest business value (score over duration times
  best-before day) is committed;
- committing raises the level of every member who was at or below the
  requirement's minimum, moves them one bucket up in the index, makes every
  member busy until the project ends, and re-sorts the touched buckets.

The output is the solution file: the count, then per assignment the project
name and the team's names.

Modules, one per part of the program:

- `Wrappers` — `Option`, for the nullable values of the program.
- `Domain` — contributors, skills, projects, requirements, assignments; the
  skill lookup (`getSkill`) and the latest availability day of a team.
- `Ranking` — the bucket order (`sortMostInterestingFirst`) as a stable
  insertion sort by a key, and `MutableList.remove` as `RemoveFirst`.
- `SkillIndex` — the skill index (`skillsMap`) as a map from skill name to a
  strictly ascending list of level buckets. It covers the TreeMap lookups
  (`get`, `ceilingEntry`), the construction, and the move of a contributor
  one bucket up. Its central invariant is `Consistent`: a contributor sits in
  the bucket `(s, lvl)` exactly when it holds skill `s` at level `lvl`.
- `Matcher` — `findBestContributorFor`, `findMentoreeFor`,
  `findIndexOfMentorFor`.
- `Assigner` — `findBestAssignmentFor` with its two phases
  (`fillHolesWithNoobs`, `replaceWithNoobs`) and the effective score.
- `Scheduler` — business value, the choice of the best candidate
  (`maxByOrNull`), the commit (`updateSkillsAndAvailability`), and the class
  `Problem` holding the mutable state (arena of contributors, skill index,
  remaining projects) with `solve`.
- `Output` — `toSolutionLines`, with the round trips of the count and of a
  team line.

Contributors live in one arena (`people: seq<Contributor>`). The index, the
teams and the taken sets hold positions in that arena. The source holds
object references and compares by name; names are unique in the problem's
input, so the two agree.

## Model

| member | source | states |
|---|---|---|
| Domain.LevelInAt | src/main/kotlin/Main.kt:17-19 | with distinct skill names, the skill entry at position j is what the lookup by its name returns |
| Domain.LevelInFound | src/main/kotlin/Main.kt:17-19 | the lookup fails exactly when no entry carries the name; otherwise some entry has that name and level |
| Domain.HoldsAtLeastIff | src/main/kotlin/Main.kt:182-184 | the mentor test (some skill entry with the name at the minimum or above) agrees with the lookup's level being at least the minimum |
| Domain.MaxDay | src/main/kotlin/Main.kt:86 | the result bounds every member's availability day and is attained by a member |
| Domain.LevelInSetLevel | src/main/kotlin/Main.kt:202 | setting a skill's level changes the lookup of that skill only, and only if the skill is held |
| Ranking.SortBySorted | src/main/kotlin/Main.kt:219-221 | the sort yields ascending keys |
| Ranking.SortBy | src/main/kotlin/Main.kt:219-221 | the sort keeps the length and the multiset of elements (a permutation) |
| Ranking.SortByStable | src/main/kotlin/Main.kt:219-221 | the sort is stable: for every key, the elements having it keep their input order |
| Ranking.SortByNoDup | src/main/kotlin/Main.kt:219-221 | the sort never duplicates an element |
| Ranking.SortBySortedIdentity | src/main/kotlin/Main.kt:219-221 | sorting a list already sorted by the key changes nothing |
| Ranking.SortByIdempotent | src/main/kotlin/Main.kt:215 | sorting a bucket twice gives the same list as sorting it once, so a bucket listed twice for re-sorting ends as if listed once |
| Ranking.SortBySameKey | src/main/kotlin/Main.kt:50-52 | when every element has the same key the sort changes nothing (all buckets built while nobody is busy stay in arena order) |
| Ranking.InsertSorted | src/main/kotlin/Main.kt:219-221 | inserting into a sorted list keeps it sorted |
| Ranking.InsertWithKey | src/main/kotlin/Main.kt:219-221 | inserting goes before the elements of equal key, so each key's elements keep their order |
| Ranking.RemoveFirst | src/main/kotlin/Main.kt:198 | removal shortens the list by one when the element is present and takes one copy out of the multiset |
| Ranking.RemoveFirstMembers | src/main/kotlin/Main.kt:198 | in a duplicate-free list, removal takes out exactly that element |
| Ranking.RemoveFirstNoDup | src/main/kotlin/Main.kt:65 | removal keeps a duplicate-free list duplicate-free |
| SkillIndex.Lookup | src/main/kotlin/Main.kt:171 | finds the position of the bucket at exactly the level, or None when no bucket has that level |
| SkillIndex.Ceiling | src/main/kotlin/Main.kt:153 | finds the least bucket at or above the level (every earlier one lies below it), or None when all lie below |
| SkillIndex.MembersAt | src/main/kotlin/Main.kt:171 | in an ascending table every bucket is found at its own level |
| SkillIndex.SetBucket | src/main/kotlin/Main.kt:199-205 | replacing a bucket keeps the table ascending and brings in no bucket but the new non-empty one |
| SkillIndex.SetBucketMembers | src/main/kotlin/Main.kt:199-205 | after replacing the bucket at a level, that level holds the new members and every other level is unchanged |
| SkillIndex.SetBucketWellFormed | src/main/kotlin/Main.kt:199-205 | replacing a bucket with a duplicate-free list keeps the table well formed (ascending, no empty bucket, no duplicates) |
| SkillIndex.ExactlyOneBucket | src/main/kotlin/Main.kt:45-55 | in a consistent index a contributor holding a skill sits in exactly one bucket of it, the one of its level, and only once |
| SkillIndex.BuildIndex | src/main/kotlin/Main.kt:45-55 | the constructed index is well formed and consistent with the arena, every bucket is sorted by rank, and when nobody is busy every bucket is in arena order |
| SkillIndex.IndexSkillsOf | src/main/kotlin/Main.kt:47-53 | indexing one contributor's skill entries extends the construction invariant to that contributor |
| SkillIndex.BuildStep | src/main/kotlin/Main.kt:48-52 | adding one skill entry to its bucket and re-sorting keeps the index well formed and consistent |
| SkillIndex.BuildStepOrder | src/main/kotlin/Main.kt:51-52 | after one construction step every bucket is still sorted by rank, and in arena order when nobody is busy |
| SkillIndex.ConsistentAddSkill | src/main/kotlin/Main.kt:48-51 | a contributor entering the bucket of one more of its skills keeps the index consistent |
| SkillIndex.MoveUp | src/main/kotlin/Main.kt:198-205 | moving a contributor up one level keeps the table ascending |
| SkillIndex.MoveUpMembers | src/main/kotlin/Main.kt:198-205 | the move removes the contributor from the bucket at its level, appends it to the bucket one above, and leaves every other level alone |
| SkillIndex.MoveUpWellFormed | src/main/kotlin/Main.kt:198-205 | the move keeps the table well formed; an emptied bucket disappears |
| SkillIndex.MoveUpConsistent | src/main/kotlin/Main.kt:197-205 | raising a contributor's level by one and moving it up keeps the index well formed and consistent with the updated arena |
| SkillIndex.ResortConsistent | src/main/kotlin/Main.kt:215 | re-sorting one bucket keeps the index well formed and consistent, leaves that bucket sorted and changes no other bucket |
| SkillIndex.ResortMembers | src/main/kotlin/Main.kt:215 | re-sorting one bucket keeps its members (as a multiset) and sorts it |
| Matcher.FirstUntaken | src/main/kotlin/Main.kt:155 | the result is the first position whose member is not taken; None exactly when every member is taken |
| Matcher.FindBestContributorFor | src/main/kotlin/Main.kt:149-161 | the result is the direct match: the first untaken member of the lowest bucket at or above the minimum that has one, which holds the skill at the minimum or above; None exactly when every contributor at or above the minimum level is taken |
| Matcher.DirectMatchSkip | src/main/kotlin/Main.kt:152-160 | buckets below the current level whose qualifying members are all taken do not change the direct match, so the scan may restart one level above a fully taken bucket |
| Matcher.ScanSkip | src/main/kotlin/Main.kt:159 | passing over a fully taken bucket keeps the scan invariant, with the next level to find one above it |
| Matcher.FindIndexOfMentorFor | src/main/kotlin/Main.kt:182-184 | the lowest slot holding a contributor with the skill at the minimum or above, or -1 when no slot does |
| Matcher.FindMentoreeFor | src/main/kotlin/Main.kt:165-180 | a found novice is untaken and its mentor slot holds a qualified teammate |
| Matcher.FindMentoreeForSpec | src/main/kotlin/Main.kt:165-180 | no duo exactly when every contributor one level below is taken or no teammate qualifies; otherwise the first untaken novice and the first qualifying slot |
| Matcher.MentoreeIsNovice | src/main/kotlin/Main.kt:171 | in a consistent index the novice holds the skill exactly one level below the minimum |
| Matcher.NoobIsNotMentor | src/main/kotlin/Main.kt:171-177 | the novice never mentors itself |
| Assigner.InitialTeam | src/main/kotlin/Main.kt:77-80 | the team is the first pass: each slot holds the direct match for its requirement with the members of the earlier slots taken, or a hole; the members are distinct and qualified, a hole means every qualified contributor fills an earlier slot, and the taken set is the team |
| Assigner.FirstPassPrefix | src/main/kotlin/Main.kt:78-80 | the first pass over the first i requirements is the first i slots of any longer first pass |
| Assigner.FirstPassSlot | src/main/kotlin/Main.kt:78-80 | in the first pass, slot i is the direct match for requirement i given exactly the members of slots 0..i-1 as taken |
| Assigner.InitialStep | src/main/kotlin/Main.kt:78-80 | appending the direct match, or a hole when every qualified contributor is taken, keeps the first pass's facts |
| Assigner.QualifiedIsExhausted | src/main/kotlin/Main.kt:79 | when the matcher finds nobody, every qualified contributor is already taken |
| Assigner.FirstSlotWithDuo | src/main/kotlin/Main.kt:110-114 | the found slot is a candidate at or after the start, and its requirement admits the duo returned |
| Assigner.FirstSlotWithDuoSkips | src/main/kotlin/Main.kt:135-139 | no candidate before the slot returned, or any candidate when none is returned, admits a duo |
| Assigner.FillHolesWithNoobs | src/main/kotlin/Main.kt:100-123 | the result is the hole-filling function from no pinned slot: while some hole admits a duo, the first such hole in ascending order gets the novice and it and the mentor's slot are pinned; filled slots keep their member; every pinned slot is a filled hole or the mentor of one; each filled hole holds a novice mentored by a pinned teammate; no hole left admits a duo; the taken set stays the team |
| Assigner.FillStep | src/main/kotlin/Main.kt:116-120 | placing a mentored novice in a hole keeps the hole-filling invariant |
| Assigner.FillStepPinned | src/main/kotlin/Main.kt:116-120 | pinning the filled hole and its mentor's slot keeps every pinned slot a filled hole or a mentor of a filled hole |
| Assigner.FillExhausted | src/main/kotlin/Main.kt:109-114 | when no hole is left or the search finds none, no hole admits a duo |
| Assigner.AllNotNullOrNull | src/main/kotlin/Main.kt:96-98 | None exactly when some slot is empty; otherwise the complete team, slot for slot |
| Assigner.ReplaceWithNoobs | src/main/kotlin/Main.kt:125-147 | the result is the replacement function starting from every slot that is not pinned: while a replaceable slot admits a duo, the first one gets the novice, the replaced member is released, and that slot and the mentor's slot stop being replaceable; pinned slots keep their member; swapped slots hold novices; the taken set stays the team |
| Assigner.ReplaceStep | src/main/kotlin/Main.kt:141-145 | swapping in a novice, releasing the replaced member and dropping both slots from the replaceable set keeps the replacement invariant |
| Assigner.MentorCanBeTheReplacedWorker | src/main/kotlin/Main.kt:137 | the mentor search includes the slot being replaced: for one level-3 member and a level-2 contributor, the member mentors its own replacement and the team is left with no mentor |
| Assigner.ReplacedMemberMentorsItself | src/main/kotlin/Main.kt:135-137 | for every team, when the member of slot i is the first qualified for requirement i, the mentor search returns i, and any duo found for slot i names slot i itself as mentor |
| Assigner.EffectiveScore | src/main/kotlin/Main.kt:86-88 | the score is never negative and never above a non-negative project score; for a positive score it is equal to the project's score exactly when the project ends by its best-before day; otherwise it is one point less per late day while that is not negative, and zero once the lateness reaches the score |
| Assigner.EffectiveScoreMonotone | src/main/kotlin/Main.kt:86-88 | ending later never earns more |
| Assigner.FinalTeamStaffed | src/main/kotlin/Main.kt:76-94 | every member of the final team meets its requirement or is exactly one level short of it |
| Assigner.AssembledCommittable | src/main/kotlin/Main.kt:83-93 | a complete team that went through both phases, scored from its start day, is a committable assignment |
| Assigner.FindBestAssignmentFor | src/main/kotlin/Main.kt:76-94 | the result is the project's evaluation: the ghost teams are the first pass and its hole filling; None exactly when a hole survives hole filling (no hole then admits a duo); otherwise the team the replacement function gives, scored for its earliest common start, a committable assignment of distinct members, each qualified or a novice |
| Assigner.EvaluatedUnique | src/main/kotlin/Main.kt:76-94 | a project has one evaluation only, fixed by the index, the arena and the project |
| Assigner.ReplaceAndScore | src/main/kotlin/Main.kt:84-93 | the team is the one the replacement function gives from the slots not pinned, and with its score it forms a committable assignment for the project |
| Scheduler.BetterIsHigherValue | src/main/kotlin/Main.kt:73-74 | the integer cross-multiplication decides exactly the order of the business values as quotients |
| Scheduler.MaxBy | src/main/kotlin/Main.kt:61-63 | the result is an element with the highest business value, and the first element to have it |
| Scheduler.MaxBySnoc | src/main/kotlin/Main.kt:63 | one more element replaces the maximum only when its value is strictly higher |
| Scheduler.Pick | src/main/kotlin/Main.kt:61-63 | None exactly when no project could be staffed; otherwise one of the candidates found |
| Scheduler.PickSnoc | src/main/kotlin/Main.kt:61-63 | adding one evaluation: a found assignment wins only with a strictly higher value than the best so far |
| Scheduler.PickBest | src/main/kotlin/Main.kt:61-63 | every remaining project is evaluated in order (entry k is the evaluation of remaining project k); the result is the pick of those evaluations: the first with the highest value, for a remaining project, and committable |
| Scheduler.Evaluate | src/main/kotlin/Main.kt:62 | the candidate computed for a project is its evaluation |
| Scheduler.EvaluationsAt | src/main/kotlin/Main.kt:61-62 | each entry of a round's candidates is the evaluation of the remaining project at the same position |
| Scheduler.RoundStep | src/main/kotlin/Main.kt:61-63 | evaluating the next remaining project extends the round, and the pick changes to it only when it has a strictly higher value |
| Scheduler.NoPickUnstaffable | src/main/kotlin/Main.kt:61-63 | a round that picks nothing has found a hole in the assembled team of every remaining project |
| Scheduler.PickedFromRemaining | src/main/kotlin/Main.kt:61-65 | the picked candidate is for a remaining project and is committable |
| Scheduler.Promote | src/main/kotlin/Main.kt:197-202 | the slot's skill rises by one level when at or below the minimum and stays otherwise; every other skill stays |
| Scheduler.FinishRule | src/main/kotlin/Main.kt:197-212 | finishing a slot raises the slot's skill by at most one level and leaves the other skills |
| Scheduler.SlotAfterUpdate | src/main/kotlin/Main.kt:191-202 | after the commit, each member's level in its slot's skill rose by one exactly when it was at or below the minimum; its other skills are unchanged |
| Scheduler.SlotBusyUntil | src/main/kotlin/Main.kt:187-212 | each member keeps its name and is busy until the team's common start day plus the duration, never earlier than before |
| Scheduler.CommittedMember | src/main/kotlin/Main.kt:191-213 | after the commit, each slot's member is that member finished for the slot's requirement |
| Scheduler.ApplyTeamOther | src/main/kotlin/Main.kt:191-213 | contributors outside the team are untouched |
| Scheduler.UpdateSlotIndex | src/main/kotlin/Main.kt:193-206 | finishing one member, with the index move when the level rises, keeps the arena well formed and the index consistent |
| Scheduler.CommitSlots | src/main/kotlin/Main.kt:191-213 | the slot loop yields the updated arena; the index is the old one with each member whose level was at or below the minimum moved one bucket up, in slot order; it stays consistent, lists each member's new bucket, and touches only the tables of the required skills |
| Scheduler.MovedIndexStep | src/main/kotlin/Main.kt:193-205 | finishing slot i, given that its member is not yet changed, is the next step of the slot-by-slot move |
| Scheduler.ResortBuckets | src/main/kotlin/Main.kt:215 | each listed bucket becomes its old members sorted by the current ranks and every other bucket is unchanged; the index stays consistent, and only listed skills' tables change |
| Scheduler.ResortedFromStep | src/main/kotlin/Main.kt:215 | sorting one more listed bucket extends the re-sorted set by that bucket, also when it was listed before |
| Scheduler.ResortKeysAreSlotBuckets | src/main/kotlin/Main.kt:204-208 | the list of buckets to re-sort is, slot by slot, the bucket of the member's new level in the slot's skill |
| Scheduler.ResortedSlots | src/main/kotlin/Main.kt:206-215 | once the listed buckets are re-sorted, the bucket each member sits in for its slot's skill is sorted |
| Scheduler.CommitTeam | src/main/kotlin/Main.kt:186-216 | the update yields the committed arena and an index equal to the old one with the promoted members moved up in slot order and then the team's buckets re-sorted by the new ranks; it is consistent, the team's buckets are sorted, and all other skills' tables are unchanged |
| Scheduler.CommitAssignment | src/main/kotlin/Main.kt:186-216 | committing an assignment yields the arena after the project, busy until the team's common start plus the duration, and the index obtained by moving the promoted members and re-sorting the team's buckets, consistent with it |
| Scheduler.Problem.UpdateSkillsAndAvailability | src/main/kotlin/Main.kt:186-216 | the arena becomes the committed one; the index becomes the old one with the promoted members moved up and the team's buckets re-sorted, consistent and well formed; the other skills' tables and the remaining projects are unchanged |
| Scheduler.ProgressStep | src/main/kotlin/Main.kt:65-66 | committing a remaining project moves it from the remaining list to the committed ones, once |
| Scheduler.Problem.Retire | src/main/kotlin/Main.kt:65 | the project leaves the remaining list and joins the committed ones; nothing else changes |
| Scheduler.Problem.CommitBest | src/main/kotlin/Main.kt:60-67 | every remaining project is evaluated and the result is the pick of those evaluations; with no candidate nothing changes and every remaining project's assembled team has a hole; otherwise the pick is for a remaining project, which leaves the list, the arena becomes the committed one, the index is updated as by the commit, and the committed list grows by the pick |
| Scheduler.Problem.Solve | src/main/kotlin/Main.kt:57-70 | the run is the greedy one: a ghost trace of states starts at the old state and ends at the new one, and each round evaluates every remaining project on its state, commits their pick (arena, index and remaining list updated as by the commit), and appends it to the committed list; every original project is either remaining or committed once, each committed team has one distinct member per requirement; at the end no project remains or every remaining project's assembled team has a hole; the lines are the solution file of the committed list |
| Scheduler.GreedyRunSnoc | src/main/kotlin/Main.kt:60-67 | a greedy run extended by one round whose pick is committed on the run's last state is again a greedy run |
| Scheduler.Problem.constructor | src/main/kotlin/Main.kt:39-55 | the index is built over all contributors and every bucket is sorted by rank; when every contributor is available on day 0, the default, every bucket is in arena order; every project remains |
| Output.NatToString | src/main/kotlin/Main.kt:232 | the count is written as a non-empty string of digits without a leading zero |
| Output.ParseNatToString | src/main/kotlin/Main.kt:232 | reading the written count back gives the count |
| Output.SplitJoin | src/main/kotlin/Main.kt:235 | a team line splits back into the names when no name contains a space |
| Output.TeamNames | src/main/kotlin/Main.kt:235 | the team's names in slot order |
| Output.ToSolutionLines | src/main/kotlin/Main.kt:229-238 | the count of assignments, then per assignment the project's name and the team line, in order |

## Left out

- `main`, `runBlocking`, `solveHCFilesInParallel` and the `HCReader` parsers (`readProblem` and the others) are I/O and are not part of this model.
- Scheduler.BusinessValue: the source divides as `Double`. The model compares exact quotients by integer cross-multiplication, which is the source's order without rounding. A positive duration times best-before day is required, so the divisor is never zero.
- `Int` overflow is not modelled: levels, days, scores and the ranking key are unbounded integers.
- `getValue` throws for a missing key, and `maxOf` throws for an empty team. The model makes these preconditions: every team member holds its slot's skill, and every project has at least one requirement.
- Assigner.FirstSlotWithDuo: the hole indices are a `java.util.HashSet<Int>`, which iterates by hash bucket. An integer's bucket is its value modulo the table's capacity, which is 16 until the set holds more than 12 holes. So the iteration is ascending only while every hole index is below the capacity. For a project with 17 or more requirements whose holes wrap around (holes 5 and 17 are visited as 17, then 5), the source may fill a different hole first. The model searches the holes in ascending order for every project.
- The team and the taken-name set are mutated in place by the source. The model passes them by value and returns the new versions.
- Contributor names are assumed unique. The model tracks taken contributors by arena position instead of by name, and does not model the deduplication of projects by `toMutableSet`.
- Ranking.SortBy: the source calls the library's stable sort. The model uses a stable insertion sort, which gives the same result for a stable sort.
- Helper methods split out of the source's loops are part of the model: `CommitSlots`, `ResortBuckets`, `CommitTeam`, `CommitAssignment`, `IndexSkillsOf`, `CommitBest`, `Retire` and `ReplaceAndScore`.
- `listsToResort` holds list references in the source. The model holds (skill, level) keys and re-reads the bucket at re-sort time. The two agree because each member is processed once, so a listed bucket is never detached before it is re-sorted.
- Each contributor is assumed to list a skill at most once. `getSkill` keeps the last entry of a name while the index keeps every entry, and the two agree only when names are distinct.
- Scheduler.Problem.Solve: the greedy run and its stop condition are stated. That no other order of commits could staff more projects is not stated, because the source does not promise it.
- Scheduler.SlotBuckets: a member's level is read from its skill entry. A member without the slot's skill gets level 0 there, which cannot happen for a committable team, where every member holds its slot's skill.
- Scheduler.MovedIndex: a member without the slot's skill leaves the index unchanged. That case cannot happen for a committable team either.
