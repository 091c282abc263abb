/**
 * The skill index (the source's skillsMap): for every skill name, a table of
 * level buckets kept in strictly ascending level order, each bucket listing
 * the arena indices of the contributors currently at that level, most
 * interesting first. A bucket is never empty: emptying one removes its level.
 */
module SkillIndex {
  import opened Wrappers
  import opened Domain
  import opened Ranking

  datatype Bucket = Bucket(level: int, members: seq<nat>)

  /** One skill's level table (the source's TreeMap from level to bucket). */
  type Levels = seq<Bucket>

  type Index = map<SkillName, Levels>

  predicate Ascending(levels: Levels) {
    forall i, j :: 0 <= i < j < |levels| ==> levels[i].level < levels[j].level
  }

  predicate WellFormedLevels(levels: Levels) {
    Ascending(levels) &&
    forall i :: 0 <= i < |levels| ==> |levels[i].members| > 0 && NoDup(levels[i].members)
  }

  /** Position of the bucket at exactly `lvl` (the TreeMap get). */
  function Lookup(levels: Levels, lvl: int): (r: Option<nat>)
    ensures r.Some? ==> r.value < |levels| && levels[r.value].level == lvl
    ensures r.None? ==> forall i :: 0 <= i < |levels| ==> levels[i].level != lvl
  {
    if |levels| == 0 then None
    else if levels[0].level == lvl then Some(0)
    else match Lookup(levels[1..], lvl)
      case None => None
      case Some(p) => Some(p + 1)
  }

  /** The contributors at exactly `lvl`; empty when the level has no bucket. */
  function Members(levels: Levels, lvl: int): seq<nat> {
    match Lookup(levels, lvl)
    case None => []
    case Some(p) => levels[p].members
  }

  lemma MembersCons(b: Bucket, rest: Levels, lvl: int)
    ensures Members([b] + rest, lvl) == if b.level == lvl then b.members else Members(rest, lvl)
  {
    assert ([b] + rest)[1..] == rest;
  }

  /** In an ascending table every bucket is found at its own level. */
  lemma {:induction false} MembersAt(levels: Levels, p: nat)
    requires Ascending(levels) && p < |levels|
    ensures Members(levels, levels[p].level) == levels[p].members
  {
    if p > 0 {
      MembersAt(levels[1..], p - 1);
      MembersCons(levels[0], levels[1..], levels[p].level);
      assert levels == [levels[0]] + levels[1..];
    }
  }

  /**
   * Position of the bucket of least level at or above `x` (the TreeMap
   * ceilingEntry), None when every level is below `x`.
   */
  function Ceiling(levels: Levels, x: int): (r: Option<nat>)
    ensures r.Some? ==> r.value < |levels| && levels[r.value].level >= x
    ensures r.Some? ==> forall i :: 0 <= i < r.value ==> levels[i].level < x
    ensures r.None? ==> forall i :: 0 <= i < |levels| ==> levels[i].level < x
    ensures r.Some? && Ascending(levels) ==>
              forall i :: 0 <= i < |levels| && levels[i].level >= x ==> levels[r.value].level <= levels[i].level
  {
    if |levels| == 0 then None
    else if levels[0].level >= x then Some(0)
    else match Ceiling(levels[1..], x)
      case None => None
      case Some(p) => Some(p + 1)
  }

  /**
   * The table with the bucket at `lvl` replaced by `ms`: created when absent,
   * removed when `ms` is empty (the getOrPut / remove pair of the source).
   */
  function SetBucket(levels: Levels, lvl: int, ms: seq<nat>): (r: Levels)
    requires Ascending(levels)
    ensures Ascending(r)
    ensures forall i :: 0 <= i < |r| ==> r[i] in levels || (r[i] == Bucket(lvl, ms) && |ms| > 0)
  {
    if |levels| == 0 then
      if |ms| == 0 then [] else [Bucket(lvl, ms)]
    else
      TailAbove(levels);
      if levels[0].level == lvl then
        if |ms| == 0 then levels[1..]
        else
          Prepend(Bucket(lvl, ms), levels[1..]);
          [Bucket(lvl, ms)] + levels[1..]
      else if lvl < levels[0].level then
        if |ms| == 0 then levels
        else
          Prepend(Bucket(lvl, ms), levels);
          [Bucket(lvl, ms)] + levels
      else
        var rest := SetBucket(levels[1..], lvl, ms);
        Prepend(levels[0], rest);
        [levels[0]] + rest
  }

  /** The buckets after the first lie above it, in ascending order. */
  lemma TailAbove(levels: Levels)
    requires Ascending(levels) && |levels| > 0
    ensures Ascending(levels[1..])
    ensures forall b :: b in levels[1..] ==> b in levels && levels[0].level < b.level
  {
    forall b | b in levels[1..] ensures b in levels && levels[0].level < b.level {
      var k :| 0 <= k < |levels[1..]| && levels[1..][k] == b;
      assert levels[k + 1] == b;
    }
  }

  /** A bucket below every bucket of an ascending table can go in front. */
  lemma Prepend(b: Bucket, rest: Levels)
    requires Ascending(rest) && forall x :: x in rest ==> b.level < x.level
    ensures Ascending([b] + rest)
    ensures forall i :: 0 <= i < |[b] + rest| ==> ([b] + rest)[i] == b || ([b] + rest)[i] in rest
  {
    var r := [b] + rest;
    forall i | 0 < i < |r| ensures r[i] == rest[i - 1] && r[i] in rest {
    }
  }

  /** SetBucket changes the bucket at `lvl` and no other. */
  lemma {:induction false} SetBucketMembers(levels: Levels, lvl: int, ms: seq<nat>, l: int)
    requires Ascending(levels)
    ensures Members(SetBucket(levels, lvl, ms), l) == if l == lvl then ms else Members(levels, l)
  {
    if |levels| == 0 {
      if |ms| > 0 { MembersCons(Bucket(lvl, ms), [], l); }
    } else {
      assert levels == [levels[0]] + levels[1..];
      MembersCons(levels[0], levels[1..], l);
      if levels[0].level == lvl {
        if |ms| > 0 {
          MembersCons(Bucket(lvl, ms), levels[1..], l);
        } else if l == lvl {
          assert Lookup(levels[1..], l).None?;
        }
      } else if lvl < levels[0].level {
        if |ms| > 0 {
          MembersCons(Bucket(lvl, ms), levels, l);
        } else if l == lvl {
          assert Lookup(levels, l).None?;
        }
      } else {
        SetBucketMembers(levels[1..], lvl, ms, l);
        MembersCons(levels[0], SetBucket(levels[1..], lvl, ms), l);
      }
    }
  }

  lemma SetBucketWellFormed(levels: Levels, lvl: int, ms: seq<nat>)
    requires WellFormedLevels(levels) && NoDup(ms)
    ensures WellFormedLevels(SetBucket(levels, lvl, ms))
  {
  }

  lemma SetTableWellFormed(idx: Index, s: SkillName, levels: Levels)
    requires WellFormedIndex(idx) && WellFormedLevels(levels)
    ensures WellFormedIndex(idx[s := levels])
  {
  }

  /** The level table of skill `s`; an unknown skill has an empty table. */
  function Table(idx: Index, s: SkillName): Levels {
    if s in idx then idx[s] else []
  }

  function MembersOf(idx: Index, s: SkillName, lvl: int): seq<nat> {
    Members(Table(idx, s), lvl)
  }

  predicate WellFormedIndex(idx: Index) {
    forall s :: s in idx ==> WellFormedLevels(idx[s])
  }

  /** Every table lists its buckets in ascending level order (what the table updates need). */
  predicate AscendingIndex(idx: Index) {
    forall s :: s in idx ==> Ascending(idx[s])
  }

  lemma WellFormedAscending(idx: Index)
    requires WellFormedIndex(idx)
    ensures AscendingIndex(idx)
  {
    forall s | s in idx ensures Ascending(idx[s]) {
      assert WellFormedLevels(idx[s]);
    }
  }

  lemma TableWellFormed(idx: Index, s: SkillName)
    requires WellFormedIndex(idx)
    ensures WellFormedLevels(Table(idx, s))
  {
  }

  /** Contributor `id` of the arena holds skill `s` at level `lvl`. */
  predicate HasLevel(people: seq<Contributor>, id: nat, s: SkillName, lvl: int) {
    id < |people| && LevelIn(people[id].skills, s) == Some(lvl)
  }

  /**
   * Membership consistency: a contributor sits in the bucket of (s, lvl)
   * exactly when it holds skill s at level lvl.
   */
  ghost predicate Consistent(idx: Index, people: seq<Contributor>) {
    (forall s: SkillName, lvl: int, id: nat :: id in MembersOf(idx, s, lvl) ==> HasLevel(people, id, s, lvl)) &&
    (forall id: nat, s: SkillName :: id < |people| && LevelIn(people[id].skills, s).Some? ==>
       id in MembersOf(idx, s, LevelIn(people[id].skills, s).value))
  }

  /** Every (skill, contributor) pair is in exactly one bucket, and only once there. */
  lemma ExactlyOneBucket(idx: Index, people: seq<Contributor>, id: nat, s: SkillName, lvl: int)
    requires WellFormedIndex(idx) && Consistent(idx, people)
    requires id < |people| && LevelIn(people[id].skills, s) == Some(lvl)
    ensures forall l :: id in MembersOf(idx, s, l) <==> l == lvl
    ensures NoDup(MembersOf(idx, s, lvl))
  {
    forall l ensures id in MembersOf(idx, s, l) <==> l == lvl {
      if id in MembersOf(idx, s, l) {
        assert LevelIn(people[id].skills, s) == Some(l);
      }
    }
    assert id in MembersOf(idx, s, lvl);
    var p := Lookup(Table(idx, s), lvl);
    assert s in idx && WellFormedLevels(idx[s]);
    assert MembersOf(idx, s, lvl) == idx[s][p.value].members;
  }

  predicate Increasing(ids: seq<nat>) {
    forall i, j :: 0 <= i < j < |ids| ==> ids[i] < ids[j]
  }

  /** Appending a skill entry whose name is new to a skill list. */
  lemma {:induction false} LevelInSnoc(skills: seq<Skill>, x: Skill, t: SkillName)
    requires LevelIn(skills, x.name).None?
    ensures LevelIn(skills + [x], t) == if x.name == t then Some(x.level) else LevelIn(skills, t)
  {
    if |skills| > 0 {
      assert (skills + [x])[1..] == skills[1..] + [x];
      LevelInSnoc(skills[1..], x, t);
    } else {
      assert ([x])[1..] == [];
    }
  }

  /** Nothing is indexed for a contributor without skills. */
  lemma ConsistentAddEmpty(idx: Index, people: seq<Contributor>, c: Contributor)
    requires Consistent(idx, people) && |c.skills| == 0
    ensures Consistent(idx, people + [c])
  {
    var ps := people + [c];
    forall id | 0 <= id < |people| ensures ps[id] == people[id] { }
    forall t: SkillName, l: int, id: nat | id in MembersOf(idx, t, l)
      ensures id < |ps| && LevelIn(ps[id].skills, t) == Some(l)
    {
      assert id < |people| && LevelIn(people[id].skills, t) == Some(l);
    }
    forall id, t | 0 <= id < |ps| && LevelIn(ps[id].skills, t).Some?
      ensures id in MembersOf(idx, t, LevelIn(ps[id].skills, t).value)
    {
      assert ps[id] == people[id];
    }
  }

  lemma MembersNoDup(idx: Index, s: SkillName, lvl: int)
    requires WellFormedIndex(idx)
    ensures NoDup(MembersOf(idx, s, lvl))
  {
  }

  /**
   * Consistency survives a change confined to one skill `s` of one contributor
   * `d`: the buckets of `s` change exactly by where `d` now sits.
   */
  lemma ConsistentTransfer(idx: Index, idx': Index, ps: seq<Contributor>, ps': seq<Contributor>, d: nat, s: SkillName, lvl: int)
    requires Consistent(idx, ps) && |ps'| == |ps| && d < |ps| && LevelIn(ps'[d].skills, s) == Some(lvl)
    requires forall id: nat, t :: id < |ps| && (id != d || t != s) ==> LevelIn(ps'[id].skills, t) == LevelIn(ps[id].skills, t)
    requires forall t :: t != s ==> Table(idx', t) == Table(idx, t)
    requires forall l, id: nat :: id in MembersOf(idx', s, l) <==>
               (id != d && id in MembersOf(idx, s, l)) || (id == d && l == lvl)
    ensures Consistent(idx', ps')
  {
    forall t: SkillName, l: int, id: nat | id in MembersOf(idx', t, l)
      ensures HasLevel(ps', id, t, l)
    {
      if t != s || id != d {
        assert id in MembersOf(idx, t, l);
        assert HasLevel(ps, id, t, l);
      }
    }
    forall id: nat, t | id < |ps'| && LevelIn(ps'[id].skills, t).Some?
      ensures id in MembersOf(idx', t, LevelIn(ps'[id].skills, t).value)
    {
      if t != s || id != d {
        assert id in MembersOf(idx, t, LevelIn(ps[id].skills, t).value);
      }
    }
  }

  /** The bucket at `lvl` rebuilt from its members plus the newcomer `i`. */
  lemma AddedBucketMembers(idx: Index, s: SkillName, lvl: int, bucket: seq<nat>, i: nat, l: int, id: nat)
    requires WellFormedIndex(idx) && i !in MembersOf(idx, s, l)
    requires multiset(bucket) == multiset(MembersOf(idx, s, lvl) + [i])
    ensures id in MembersOf(idx[s := SetBucket(Table(idx, s), lvl, bucket)], s, l) <==>
      (id != i && id in MembersOf(idx, s, l)) || (id == i && l == lvl)
  {
    SetBucketMembers(Table(idx, s), lvl, bucket, l);
    if l == lvl {
      assert id in bucket <==> id in multiset(MembersOf(idx, s, lvl) + [i]);
    }
  }

  /** One step of the index construction: contributor |ps| enters the bucket of its skill j. */
  lemma ConsistentAddSkill(idx: Index, ps: seq<Contributor>, c: Contributor, j: nat, bucket: seq<nat>)
    requires WellFormedIndex(idx)
    requires UniqueSkillNames(c.skills) && j < |c.skills|
    requires Consistent(idx, ps + [c.(skills := c.skills[..j])])
    requires multiset(bucket) == multiset(MembersOf(idx, c.skills[j].name, c.skills[j].level) + [|ps|])
    ensures Consistent(idx[c.skills[j].name := SetBucket(Table(idx, c.skills[j].name), c.skills[j].level, bucket)],
                       ps + [c.(skills := c.skills[..j + 1])])
  {
    var sk := c.skills[j];
    var i := |ps|;
    var before := ps + [c.(skills := c.skills[..j])];
    var after := ps + [c.(skills := c.skills[..j + 1])];
    var oldMs := MembersOf(idx, sk.name, sk.level);
    var idx' := idx[sk.name := SetBucket(Table(idx, sk.name), sk.level, bucket)];
    LevelInFound(c.skills[..j], sk.name);
    assert LevelIn(c.skills[..j], sk.name).None?;
    assert c.skills[..j + 1] == c.skills[..j] + [sk];
    forall id: nat, t | id < |before| && (id != i || t != sk.name)
      ensures LevelIn(after[id].skills, t) == LevelIn(before[id].skills, t)
    {
      if id == i { LevelInSnoc(c.skills[..j], sk, t); }
    }
    LevelInSnoc(c.skills[..j], sk, sk.name);
    forall l, id: nat ensures id in MembersOf(idx', sk.name, l) <==>
      (id != i && id in MembersOf(idx, sk.name, l)) || (id == i && l == sk.level)
    {
      assert !HasLevel(before, i, sk.name, l);
      AddedBucketMembers(idx, sk.name, sk.level, bucket, i, l, id);
    }
    ConsistentTransfer(idx, idx', before, after, i, sk.name, sk.level);
  }

  /** Appending a contributor not yet in a bucket keeps it duplicate-free, and increasing when it is the largest index. */
  lemma AppendFresh(idx: Index, ps: seq<Contributor>, s: SkillName, lvl: int)
    requires WellFormedIndex(idx) && Consistent(idx, ps) && |ps| > 0
    requires LevelIn(ps[|ps| - 1].skills, s).None?
    ensures NoDup(MembersOf(idx, s, lvl) + [|ps| - 1])
    ensures Increasing(MembersOf(idx, s, lvl)) ==> Increasing(MembersOf(idx, s, lvl) + [|ps| - 1])
  {
    var ms := MembersOf(idx, s, lvl);
    MembersNoDup(idx, s, lvl);
    forall k | 0 <= k < |ms| ensures ms[k] < |ps| - 1 {
      assert ms[k] in ms;
      assert HasLevel(ps, ms[k], s, lvl);
    }
  }

  /** Every bucket of the index lists its members in ascending rank. */
  ghost predicate AllSorted(idx: Index, key: nat -> int) {
    forall s, lvl :: SortedBy(MembersOf(idx, s, lvl), key)
  }

  ghost predicate AllIncreasing(idx: Index) {
    forall s, lvl :: Increasing(MembersOf(idx, s, lvl))
  }

  /** Replacing one bucket changes the members at that skill and level only. */
  lemma SetBucketOrder(idx: Index, s: SkillName, lvl: int, bucket: seq<nat>, key: nat -> int)
    requires WellFormedIndex(idx) && SortedBy(bucket, key) && AllSorted(idx, key)
    ensures var idx' := idx[s := SetBucket(Table(idx, s), lvl, bucket)];
            AllSorted(idx', key) && (AllIncreasing(idx) && Increasing(bucket) ==> AllIncreasing(idx'))
  {
    var idx' := idx[s := SetBucket(Table(idx, s), lvl, bucket)];
    forall t, l ensures MembersOf(idx', t, l) == if t == s && l == lvl then bucket else MembersOf(idx, t, l) {
      if t == s { SetBucketMembers(Table(idx, s), lvl, bucket, l); }
    }
  }

  /** With nobody busy every key is 0, so the new bucket is the old one followed by `i`. */
  lemma BuildBucketIdle(idx: Index, people: seq<Contributor>, i: nat, j: nat)
    requires WellFormedPeople(people) && i < |people| && j < |people[i].skills|
    requires forall id :: 0 <= id < |people| ==> people[id].dayAvailable == 0
    requires WellFormedIndex(idx) && Consistent(idx, Partial(people, i, j)) && AllIncreasing(idx)
    ensures var sk := people[i].skills[j];
            Increasing(SortBy(Members(Table(idx, sk.name), sk.level) + [i], RankKey(people)))
  {
    var c := people[i];
    var sk := c.skills[j];
    var ps := Partial(people, i, j);
    var unsorted := MembersOf(idx, sk.name, sk.level) + [i];
    LevelInFound(c.skills[..j], sk.name);
    assert ps[|ps| - 1] == c.(skills := c.skills[..j]);
    AppendFresh(idx, ps, sk.name, sk.level);
    forall k | 0 <= k < |unsorted| ensures RankKey(people)(unsorted[k]) == 0 {
      if k < |unsorted| - 1 {
        assert unsorted[k] in MembersOf(idx, sk.name, sk.level);
        assert HasLevel(ps, unsorted[k], sk.name, sk.level);
      }
    }
    SortBySameKey(unsorted, RankKey(people), 0);
  }

  /** The bucket order after one construction step: ranked, and by arena index when nobody is busy. */
  lemma BuildStepOrder(idx: Index, people: seq<Contributor>, i: nat, j: nat, allIdle: bool)
    requires WellFormedPeople(people) && i < |people| && j < |people[i].skills|
    requires allIdle == forall id :: 0 <= id < |people| ==> people[id].dayAvailable == 0
    requires WellFormedIndex(idx) && Consistent(idx, Partial(people, i, j))
    requires AllSorted(idx, RankKey(people))
    requires allIdle ==> AllIncreasing(idx)
    ensures var sk := people[i].skills[j];
            var bucket := SortBy(Members(Table(idx, sk.name), sk.level) + [i], RankKey(people));
            var idx' := idx[sk.name := SetBucket(Table(idx, sk.name), sk.level, bucket)];
            AllSorted(idx', RankKey(people)) && (allIdle ==> AllIncreasing(idx'))
  {
    var sk := people[i].skills[j];
    var bucket := SortBy(Members(Table(idx, sk.name), sk.level) + [i], RankKey(people));
    SortBySorted(Members(Table(idx, sk.name), sk.level) + [i], RankKey(people));
    if allIdle {
      BuildBucketIdle(idx, people, i, j);
    }
    SetBucketOrder(idx, sk.name, sk.level, bucket, RankKey(people));
  }

  /** The body of the construction loop keeps the index well formed and consistent. */
  lemma BuildStep(idx: Index, people: seq<Contributor>, i: nat, j: nat)
    requires WellFormedPeople(people) && i < |people| && j < |people[i].skills|
    requires WellFormedIndex(idx) && Consistent(idx, people[..i] + [people[i].(skills := people[i].skills[..j])])
    ensures var sk := people[i].skills[j];
            var bucket := SortBy(Members(Table(idx, sk.name), sk.level) + [i], RankKey(people));
            var idx' := idx[sk.name := SetBucket(Table(idx, sk.name), sk.level, bucket)];
            WellFormedIndex(idx') && Consistent(idx', people[..i] + [people[i].(skills := people[i].skills[..j + 1])])
  {
    var c := people[i];
    var sk := c.skills[j];
    var ps := people[..i] + [c.(skills := c.skills[..j])];
    var levels := Table(idx, sk.name);
    var unsorted := Members(levels, sk.level) + [i];
    var bucket := SortBy(unsorted, RankKey(people));
    LevelInFound(c.skills[..j], sk.name);
    assert ps[|ps| - 1] == c.(skills := c.skills[..j]);
    AppendFresh(idx, ps, sk.name, sk.level);
    SortByNoDup(unsorted, RankKey(people));
    TableWellFormed(idx, sk.name);
    SetBucketWellFormed(levels, sk.level, bucket);
    SetTableWellFormed(idx, sk.name, SetBucket(levels, sk.level, bucket));
    ConsistentAddSkill(idx, people[..i], c, j, bucket);
  }

  /** What the construction keeps over the prefix `ps` of the arena already indexed. */
  ghost predicate BuildInvariant(idx: Index, people: seq<Contributor>, ps: seq<Contributor>, allIdle: bool) {
    WellFormedIndex(idx) && Consistent(idx, ps) && AllSorted(idx, RankKey(people)) && (allIdle ==> AllIncreasing(idx))
  }

  /** Contributor `i` with only their first `j` skills. */
  function Partial(people: seq<Contributor>, i: nat, j: nat): seq<Contributor>
    requires i < |people| && j <= |people[i].skills|
  {
    people[..i] + [people[i].(skills := people[i].skills[..j])]
  }

  /** Indexing skill entry `j` of contributor `i` keeps the construction invariant. */
  lemma BuildEntry(idx: Index, people: seq<Contributor>, i: nat, j: nat, allIdle: bool)
    requires WellFormedPeople(people) && i < |people| && j < |people[i].skills|
    requires allIdle == forall id :: 0 <= id < |people| ==> people[id].dayAvailable == 0
    requires BuildInvariant(idx, people, Partial(people, i, j), allIdle)
    ensures var sk := people[i].skills[j];
            var bucket := SortBy(Members(Table(idx, sk.name), sk.level) + [i], RankKey(people));
            BuildInvariant(idx[sk.name := SetBucket(Table(idx, sk.name), sk.level, bucket)], people, Partial(people, i, j + 1), allIdle)
  {
    BuildStep(idx, people, i, j);
    BuildStepOrder(idx, people, i, j, allIdle);
  }

  /** The inner loop of the construction: the skill entries of contributor `i`, in order. */
  method IndexSkillsOf(idx0: Index, people: seq<Contributor>, i: nat, ghost allIdle: bool) returns (idx: Index)
    requires WellFormedPeople(people) && i < |people|
    requires allIdle == forall id :: 0 <= id < |people| ==> people[id].dayAvailable == 0
    requires BuildInvariant(idx0, people, people[..i], allIdle)
    ensures BuildInvariant(idx, people, people[..i + 1], allIdle)
  {
    idx := idx0;
    var c := people[i];
    ConsistentAddEmpty(idx, people[..i], c.(skills := []));
    assert c.skills[..0] == [];
    for j := 0 to |c.skills|
      invariant BuildInvariant(idx, people, Partial(people, i, j), allIdle)
    {
      var sk := c.skills[j];
      var levels := Table(idx, sk.name);
      var bucket := Members(levels, sk.level) + [i];
      bucket := SortBy(bucket, RankKey(people));
      BuildEntry(idx, people, i, j, allIdle);
      idx := idx[sk.name := SetBucket(levels, sk.level, bucket)];
    }
    assert c.skills[..|c.skills|] == c.skills;
    assert Partial(people, i, |c.skills|) == people[..i + 1];
  }

  /**
   * Builds the skill index (the skillsMap initialiser): every skill entry of
   * every contributor, in arena order, is appended to the bucket of its level,
   * and that bucket is then re-sorted most interesting first.
   */
  method BuildIndex(people: seq<Contributor>) returns (idx: Index)
    requires WellFormedPeople(people)
    ensures WellFormedIndex(idx)
    ensures Consistent(idx, people)
    ensures forall s, lvl :: SortedBy(MembersOf(idx, s, lvl), RankKey(people))
    ensures (forall id :: 0 <= id < |people| ==> people[id].dayAvailable == 0) ==>
              forall s, lvl :: Increasing(MembersOf(idx, s, lvl))
  {
    ghost var allIdle := forall id :: 0 <= id < |people| ==> people[id].dayAvailable == 0;
    idx := map[];
    assert people[..0] == [];
    for i := 0 to |people|
      invariant BuildInvariant(idx, people, people[..i], allIdle)
    {
      idx := IndexSkillsOf(idx, people, i, allIdle);
    }
    assert people[..|people|] == people;
  }

  /** Consistency does not depend on anything but skill levels. */
  lemma ConsistentSameSkills(idx: Index, ps: seq<Contributor>, ps': seq<Contributor>)
    requires Consistent(idx, ps) && |ps'| == |ps|
    requires forall id :: 0 <= id < |ps| ==> ps'[id].skills == ps[id].skills
    ensures Consistent(idx, ps')
  {
    forall t: SkillName, l: int, id: nat | id in MembersOf(idx, t, l) ensures HasLevel(ps', id, t, l) {
      assert HasLevel(ps, id, t, l);
    }
  }

  /**
   * Moving contributor `d` up one level in a table (the remove / getOrPut /
   * add sequence of the source): it leaves the bucket at `lvl`, whose level
   * disappears if it becomes empty, and joins the end of the bucket at `lvl + 1`.
   */
  function MoveUp(levels: Levels, d: nat, lvl: int): (r: Levels)
    requires Ascending(levels)
    ensures Ascending(r)
  {
    var without := SetBucket(levels, lvl, RemoveFirst(Members(levels, lvl), d));
    SetBucket(without, lvl + 1, Members(without, lvl + 1) + [d])
  }

  /** MoveUp changes the buckets at `lvl` and `lvl + 1` and no other. */
  lemma MoveUpMembers(levels: Levels, d: nat, lvl: int, l: int)
    requires Ascending(levels)
    ensures Members(MoveUp(levels, d, lvl), l) ==
              if l == lvl then RemoveFirst(Members(levels, lvl), d)
              else if l == lvl + 1 then Members(levels, lvl + 1) + [d]
              else Members(levels, l)
  {
    var without := SetBucket(levels, lvl, RemoveFirst(Members(levels, lvl), d));
    SetBucketMembers(levels, lvl, RemoveFirst(Members(levels, lvl), d), l);
    SetBucketMembers(levels, lvl, RemoveFirst(Members(levels, lvl), d), lvl + 1);
    SetBucketMembers(without, lvl + 1, Members(without, lvl + 1) + [d], l);
  }

  /** Moving up a contributor that sits at `lvl` keeps a well-formed table well formed. */
  lemma MoveUpWellFormed(levels: Levels, d: nat, lvl: int)
    requires WellFormedLevels(levels) && d !in Members(levels, lvl + 1)
    ensures WellFormedLevels(MoveUp(levels, d, lvl))
  {
    var removed := RemoveFirst(Members(levels, lvl), d);
    var without := SetBucket(levels, lvl, removed);
    MembersNoDupIn(levels, lvl);
    MembersNoDupIn(levels, lvl + 1);
    RemoveFirstNoDup(Members(levels, lvl), d);
    SetBucketWellFormed(levels, lvl, removed);
    SetBucketMembers(levels, lvl, removed, lvl + 1);
    assert Members(without, lvl + 1) == Members(levels, lvl + 1);
    NoDupSnoc(Members(without, lvl + 1), d);
    SetBucketWellFormed(without, lvl + 1, Members(without, lvl + 1) + [d]);
  }

  lemma MembersNoDupIn(levels: Levels, lvl: int)
    requires WellFormedLevels(levels)
    ensures NoDup(Members(levels, lvl))
  {
  }

  /** Where everyone sits in skill `s` after `d`, found only at `lvl`, moves up. */
  lemma MoveUpMembership(idx: Index, d: nat, s: SkillName, lvl: int, l: int, id: nat)
    requires WellFormedIndex(idx)
    requires d !in MembersOf(idx, s, lvl + 1) && (l != lvl ==> d !in MembersOf(idx, s, l))
    ensures id in MembersOf(idx[s := MoveUp(Table(idx, s), d, lvl)], s, l) <==>
              (id != d && id in MembersOf(idx, s, l)) || (id == d && l == lvl + 1)
  {
    var levels := Table(idx, s);
    assert Table(idx[s := MoveUp(levels, d, lvl)], s) == MoveUp(levels, d, lvl);
    var m := Members(MoveUp(levels, d, lvl), l);
    MoveUpMembers(levels, d, lvl, l);
    if l == lvl {
      assert m == RemoveFirst(Members(levels, lvl), d);
      MembersNoDup(idx, s, lvl);
      RemoveFirstMembers(Members(levels, lvl), d, id);
    } else if l == lvl + 1 {
      assert m == Members(levels, lvl + 1) + [d];
    } else {
      assert m == Members(levels, l);
    }
  }

  /** Where everyone sits after `d`, found in skill `s` at no level but `lvl`, moves up: every level at once. */
  lemma MoveUpMembershipAll(idx: Index, d: nat, s: SkillName, lvl: int)
    requires WellFormedIndex(idx)
    requires forall l :: l != lvl ==> d !in MembersOf(idx, s, l)
    ensures var idx' := idx[s := MoveUp(Table(idx, s), d, lvl)];
      forall l, id: nat :: id in MembersOf(idx', s, l) <==>
        (id != d && id in MembersOf(idx, s, l)) || (id == d && l == lvl + 1)
  {
    assert d !in MembersOf(idx, s, lvl + 1);
    forall l, id: nat ensures id in MembersOf(idx[s := MoveUp(Table(idx, s), d, lvl)], s, l) <==>
              (id != d && id in MembersOf(idx, s, l)) || (id == d && l == lvl + 1)
    {
      MoveUpMembership(idx, d, s, lvl, l, id);
    }
  }

  /** Raising `d`'s level in skill `s` by one and moving it up in the table keeps the index consistent. */
  lemma MoveUpConsistent(idx: Index, ps: seq<Contributor>, ps': seq<Contributor>, d: nat, s: SkillName, lvl: int)
    requires WellFormedIndex(idx) && Consistent(idx, ps) && d < |ps| && |ps'| == |ps|
    requires LevelIn(ps[d].skills, s) == Some(lvl) && LevelIn(ps'[d].skills, s) == Some(lvl + 1)
    requires forall id: nat, t :: id < |ps| && (id != d || t != s) ==> LevelIn(ps'[id].skills, t) == LevelIn(ps[id].skills, t)
    ensures WellFormedIndex(idx[s := MoveUp(Table(idx, s), d, lvl)])
    ensures Consistent(idx[s := MoveUp(Table(idx, s), d, lvl)], ps')
  {
    ExactlyOneBucket(idx, ps, d, s, lvl);
    TableWellFormed(idx, s);
    assert d !in MembersOf(idx, s, lvl + 1);
    MoveUpWellFormed(Table(idx, s), d, lvl);
    MoveUpMembershipAll(idx, d, s, lvl);
    ConsistentTransfer(idx, idx[s := MoveUp(Table(idx, s), d, lvl)], ps, ps', d, s, lvl + 1);
  }

  /** Re-sorting one bucket keeps the table well formed and changes that bucket only, to a sorted one. */
  lemma ResortMembers(idx: Index, s: SkillName, lvl: int, key: nat -> int)
    requires WellFormedIndex(idx)
    ensures var ms := SortBy(MembersOf(idx, s, lvl), key);
      var idx' := idx[s := SetBucket(Table(idx, s), lvl, ms)];
      WellFormedIndex(idx') && SortedBy(MembersOf(idx', s, lvl), key) &&
      multiset(MembersOf(idx', s, lvl)) == multiset(MembersOf(idx, s, lvl)) &&
      forall t, l :: (t != s || l != lvl) ==> MembersOf(idx', t, l) == MembersOf(idx, t, l)
  {
    var ms := SortBy(MembersOf(idx, s, lvl), key);
    var idx' := idx[s := SetBucket(Table(idx, s), lvl, ms)];
    MembersNoDup(idx, s, lvl);
    SortByNoDup(MembersOf(idx, s, lvl), key);
    SortBySorted(MembersOf(idx, s, lvl), key);
    TableWellFormed(idx, s);
    SetBucketWellFormed(Table(idx, s), lvl, ms);
    assert Table(idx', s) == SetBucket(Table(idx, s), lvl, ms);
    forall t, l | t == s ensures MembersOf(idx', t, l) == if l == lvl then ms else MembersOf(idx, t, l) {
      SetBucketMembers(Table(idx, s), lvl, ms, l);
    }
  }

  /** Consistency depends only on who is in which bucket. */
  lemma ConsistentSameMembers(idx: Index, idx': Index, ps: seq<Contributor>)
    requires Consistent(idx, ps)
    requires forall t, l, id: nat :: id in MembersOf(idx', t, l) <==> id in MembersOf(idx, t, l)
    ensures Consistent(idx', ps)
  {
  }

  /** Re-sorting one bucket keeps the index well formed and consistent, and leaves that bucket sorted. */
  lemma ResortConsistent(idx: Index, ps: seq<Contributor>, s: SkillName, lvl: int, key: nat -> int)
    requires WellFormedIndex(idx) && Consistent(idx, ps)
    ensures var idx' := idx[s := SetBucket(Table(idx, s), lvl, SortBy(MembersOf(idx, s, lvl), key))];
      WellFormedIndex(idx') && Consistent(idx', ps) && SortedBy(MembersOf(idx', s, lvl), key) &&
      forall t, l :: (t != s || l != lvl) ==> MembersOf(idx', t, l) == MembersOf(idx, t, l)
  {
    var idx' := idx[s := SetBucket(Table(idx, s), lvl, SortBy(MembersOf(idx, s, lvl), key))];
    ResortMembers(idx, s, lvl, key);
    forall t, l, id: nat ensures id in MembersOf(idx', t, l) <==> id in MembersOf(idx, t, l) {
      if t == s && l == lvl {
        assert id in MembersOf(idx', t, l) <==> id in multiset(MembersOf(idx', t, l));
        assert id in MembersOf(idx, t, l) <==> id in multiset(MembersOf(idx, t, l));
      }
    }
    ConsistentSameMembers(idx, idx', ps);
  }

}
