/** The partitions the public portfolio page draws from a profile: skills
    grouped by category, trajectory buckets per work-sample category,
    impact bullets, the two-line name and the bounded tag lists. None of
    them changes the profile. */
module Portfolio {
  import opened Wrappers
  import opened Text
  import opened Seqs
  import opened Profile

  // ---------------------------------------------------------------------
  // Skills by category

  /** The skills of one category, in profile order. */
  datatype CategoryGroup = CategoryGroup(category: string, skills: seq<Skill>)

  /** The skills of `skills` whose category is `category`, in order. */
  function InCategory(skills: seq<Skill>, category: string): (r: seq<Skill>) {
    Filter(skills, (s: Skill) => s.category == category)
  }

  predicate DistinctCategories(groups: seq<CategoryGroup>) {
    forall i, j :: 0 <= i < j < |groups| ==> groups[i].category != groups[j].category
  }

  /** Position of the group for `category`, or `|groups|` when there is
      none yet: the `acc[skill.category]` lookup. */
  function FindCategory(groups: seq<CategoryGroup>, category: string): (k: nat)
    ensures k <= |groups|
    ensures k < |groups| ==> groups[k].category == category
    ensures forall i :: 0 <= i < k ==> groups[i].category != category
    decreases |groups|
  {
    if |groups| == 0 then 0
    else if groups[0].category == category then 0
    else
      var k := 1 + FindCategory(groups[1..], category);
      assert forall i :: 1 <= i < |groups| ==> groups[i] == groups[1..][i - 1];
      k
  }

  /** One step of the `reduce`: push `s` onto its category's group,
      opening a new group at the end if the category is new. */
  function AddSkill(groups: seq<CategoryGroup>, s: Skill): (r: seq<CategoryGroup>) {
    var k := FindCategory(groups, s.category);
    if k < |groups| then groups[k := groups[k].(skills := groups[k].skills + [s])]
    else groups + [CategoryGroup(s.category, [s])]
  }

  /** `skillsByCategory`, with categories in order of first appearance. */
  function GroupByCategory(skills: seq<Skill>): (groups: seq<CategoryGroup>)
    decreases |skills|
  {
    if |skills| == 0 then []
    else AddSkill(GroupByCategory(skills[..|skills| - 1]), skills[|skills| - 1])
  }

  /** Sum of the group sizes. */
  function TotalSize(groups: seq<CategoryGroup>): (n: nat)
    decreases |groups|
  {
    if |groups| == 0 then 0 else TotalSize(groups[..|groups| - 1]) + |groups[|groups| - 1].skills|
  }

  lemma {:induction false} TotalSizeGrow(groups: seq<CategoryGroup>, k: nat, s: Skill)
    requires k < |groups|
    ensures TotalSize(groups[k := groups[k].(skills := groups[k].skills + [s])]) == TotalSize(groups) + 1
    decreases |groups|
  {
    var r := groups[k := groups[k].(skills := groups[k].skills + [s])];
    var n := |groups|;
    if k < n - 1 {
      assert r[..n - 1] == groups[..n - 1][k := groups[k].(skills := groups[k].skills + [s])];
      TotalSizeGrow(groups[..n - 1], k, s);
    } else {
      assert r[..n - 1] == groups[..n - 1];
    }
  }

  /** What pushing `s` onto `groups` has done when the result is `r`. */
  predicate PushEffect(groups: seq<CategoryGroup>, s: Skill, r: seq<CategoryGroup>) {
    && DistinctCategories(r)
    && TotalSize(r) == TotalSize(groups) + 1
    && |groups| <= |r| <= |groups| + 1
    && FindCategory(r, s.category) < |r|
    && (forall i :: 0 <= i < |groups| ==> r[i].category == groups[i].category)
    && (|r| > |groups| ==> r[|groups|] == CategoryGroup(s.category, [s]))
    && (forall i :: 0 <= i < |groups| ==>
          r[i].skills == groups[i].skills + (if groups[i].category == s.category then [s] else []))
  }

  /** A push onto a category that already has a group. */
  lemma {:induction false} PushExisting(groups: seq<CategoryGroup>, s: Skill)
    requires DistinctCategories(groups)
    requires FindCategory(groups, s.category) < |groups|
    ensures PushEffect(groups, s, AddSkill(groups, s))
  {
    var k := FindCategory(groups, s.category);
    var r := groups[k := groups[k].(skills := groups[k].skills + [s])];
    assert AddSkill(groups, s) == r;
    TotalSizeGrow(groups, k, s);
    assert r[k].category == s.category;
  }

  /** A push that opens a new group at the end. */
  lemma {:induction false} PushNew(groups: seq<CategoryGroup>, s: Skill)
    requires DistinctCategories(groups)
    requires FindCategory(groups, s.category) == |groups|
    ensures PushEffect(groups, s, AddSkill(groups, s))
  {
    var r := groups + [CategoryGroup(s.category, [s])];
    assert AddSkill(groups, s) == r;
    assert r[..|groups|] == groups;
    assert r[|groups|].category == s.category;
  }

  /** What one step of the `reduce` does, group by group. */
  lemma {:induction false} AddSkillEffect(groups: seq<CategoryGroup>, s: Skill)
    requires DistinctCategories(groups)
    ensures var r := AddSkill(groups, s);
      && DistinctCategories(r)
      && TotalSize(r) == TotalSize(groups) + 1
      && |groups| <= |r| <= |groups| + 1
      && FindCategory(r, s.category) < |r|
      && (forall i :: 0 <= i < |groups| ==> r[i].category == groups[i].category)
      && (|r| > |groups| ==> r[|groups|] == CategoryGroup(s.category, [s]))
      && (forall i :: 0 <= i < |groups| ==>
            r[i].skills == groups[i].skills + (if groups[i].category == s.category then [s] else []))
  {
    if FindCategory(groups, s.category) < |groups| {
      PushExisting(groups, s);
    } else {
      PushNew(groups, s);
    }
  }

  /** Groups found for earlier skills are kept by later steps. */
  lemma {:induction false} CategoryStaysFound(groups: seq<CategoryGroup>, s: Skill, c: string)
    requires DistinctCategories(groups)
    requires FindCategory(groups, c) < |groups|
    ensures FindCategory(AddSkill(groups, s), c) < |AddSkill(groups, s)|
  {
    AddSkillEffect(groups, s);
    var k := FindCategory(groups, c);
    var r := AddSkill(groups, s);
    assert r[k].category == c;
  }

  /** Position of the first skill of `category`, or `|skills|` when no
      skill has it. */
  function FirstIndex(skills: seq<Skill>, category: string): (k: nat)
    ensures k <= |skills|
    ensures k < |skills| ==> skills[k].category == category
    ensures forall m :: 0 <= m < k ==> skills[m].category != category
    decreases |skills|
  {
    if |skills| == 0 then 0
    else
      var n := |skills|;
      var k := FirstIndex(skills[..n - 1], category);
      assert forall m :: 0 <= m < n - 1 ==> skills[..n - 1][m] == skills[m];
      if k < n - 1 then k else if skills[n - 1].category == category then n - 1 else n
  }

  /** Every group holds at least one skill: a key is created only for
      the skill that is pushed onto it. */
  predicate NonEmptyGroups(groups: seq<CategoryGroup>) {
    forall i :: 0 <= i < |groups| ==> groups[i].skills != []
  }

  /** The groups come in the order their categories first appear among
      the skills, which is the insertion order `Object.entries` lists. */
  predicate FirstAppearanceOrder(groups: seq<CategoryGroup>, skills: seq<Skill>) {
    forall i, j :: 0 <= i < j < |groups| ==>
      FirstIndex(skills, groups[i].category) < FirstIndex(skills, groups[j].category)
  }

  /** The facts that make `groups` the category partition of `skills`. */
  predicate IsPartition(groups: seq<CategoryGroup>, skills: seq<Skill>) {
    && DistinctCategories(groups)
    && TotalSize(groups) == |skills|
    && (forall i :: 0 <= i < |groups| ==> groups[i].skills == InCategory(skills, groups[i].category))
    && (forall k :: 0 <= k < |skills| ==> FindCategory(groups, skills[k].category) < |groups|)
    && NonEmptyGroups(groups)
    && FirstAppearanceOrder(groups, skills)
  }

  /** One step of the `reduce` keeps the partition. */
  lemma {:induction false} PartitionStep(prev: seq<CategoryGroup>, init: seq<Skill>, s: Skill)
    requires IsPartition(prev, init)
    ensures IsPartition(AddSkill(prev, s), init + [s])
  {
    var groups, skills := AddSkill(prev, s), init + [s];
    assert DistinctCategories(groups) && TotalSize(groups) == |skills| by {
      AddSkillEffect(prev, s);
    }
    assert forall i :: 0 <= i < |groups| ==> groups[i].skills == InCategory(skills, groups[i].category) by {
      StepContents(prev, init, s);
    }
    assert forall k :: 0 <= k < |skills| ==> FindCategory(groups, skills[k].category) < |groups| by {
      StepCovers(prev, init, s);
    }
    assert NonEmptyGroups(groups) by {
      StepNonEmpty(prev, s);
    }
    assert FirstAppearanceOrder(groups, skills) by {
      GroupsFirstAppear(prev, init);
      StepOrder(prev, init, s);
    }
  }

  /** After one step no group is empty. */
  lemma {:induction false} StepNonEmpty(prev: seq<CategoryGroup>, s: Skill)
    requires DistinctCategories(prev) && NonEmptyGroups(prev)
    ensures NonEmptyGroups(AddSkill(prev, s))
  {
    AddSkillEffect(prev, s);
  }

  /** The category of a non-empty group first appears among the skills. */
  lemma {:induction false} GroupFirstAppears(prev: seq<CategoryGroup>, init: seq<Skill>, i: nat)
    requires i < |prev| && prev[i].skills != []
    requires prev[i].skills == InCategory(init, prev[i].category)
    ensures FirstIndex(init, prev[i].category) < |init|
  {
    if FirstIndex(init, prev[i].category) == |init| {
      InCategoryAbsent(init, prev[i].category);
    }
  }

  /** Every category of a partition first appears among its skills. */
  lemma {:induction false} GroupsFirstAppear(prev: seq<CategoryGroup>, init: seq<Skill>)
    requires NonEmptyGroups(prev)
    requires forall g :: 0 <= g < |prev| ==> prev[g].skills == InCategory(init, prev[g].category)
    ensures forall i :: 0 <= i < |prev| ==> FirstIndex(init, prev[i].category) < |init|
  {
    forall i | 0 <= i < |prev|
      ensures FirstIndex(init, prev[i].category) < |init|
    {
      GroupFirstAppears(prev, init, i);
    }
  }

  /** Where a category first appears once one more skill is added. */
  lemma {:induction false} FirstIndexSnoc(init: seq<Skill>, s: Skill, c: string)
    ensures FirstIndex(init + [s], c) ==
      if FirstIndex(init, c) < |init| then FirstIndex(init, c)
      else if s.category == c then |init| else |init| + 1
  {
    assert (init + [s])[..|init|] == init;
  }

  /** A group the step opens is for a category no earlier skill has, so
      that category first appears at the new skill. */
  lemma {:induction false} NewGroupFirst(prev: seq<CategoryGroup>, init: seq<Skill>, s: Skill)
    requires forall k :: 0 <= k < |init| ==> FindCategory(prev, init[k].category) < |prev|
    requires |AddSkill(prev, s)| > |prev|
    ensures AddSkill(prev, s)[|prev|].category == s.category
    ensures FirstIndex(init + [s], s.category) == |init|
  {
    assert FindCategory(prev, s.category) == |prev|;
    FirstIndexSnoc(init, s, s.category);
  }

  /** After one step the groups still follow first appearance: the old
      groups keep their first positions, and a new group's category
      first appears at the new skill, after all of them. */
  lemma {:induction false} StepOrder(prev: seq<CategoryGroup>, init: seq<Skill>, s: Skill)
    requires DistinctCategories(prev)
    requires forall i :: 0 <= i < |prev| ==> FirstIndex(init, prev[i].category) < |init|
    requires forall k :: 0 <= k < |init| ==> FindCategory(prev, init[k].category) < |prev|
    requires FirstAppearanceOrder(prev, init)
    ensures FirstAppearanceOrder(AddSkill(prev, s), init + [s])
  {
    var groups, skills := AddSkill(prev, s), init + [s];
    OldGroupsFirst(prev, init, s);
    if |groups| > |prev| {
      NewGroupFirst(prev, init, s);
    }
    forall i, j | 0 <= i < j < |groups|
      ensures FirstIndex(skills, groups[i].category) < FirstIndex(skills, groups[j].category)
    {
      if j < |prev| {
        assert FirstIndex(init, prev[i].category) < FirstIndex(init, prev[j].category);
      }
    }
  }

  /** The groups already open keep the position where their category
      first appears, which lies among the earlier skills. */
  lemma {:induction false} OldGroupsFirst(prev: seq<CategoryGroup>, init: seq<Skill>, s: Skill)
    requires DistinctCategories(prev)
    requires forall i :: 0 <= i < |prev| ==> FirstIndex(init, prev[i].category) < |init|
    ensures |prev| <= |AddSkill(prev, s)| <= |prev| + 1
    ensures forall i :: 0 <= i < |prev| ==>
      FirstIndex(init + [s], AddSkill(prev, s)[i].category) == FirstIndex(init, prev[i].category) < |init|
  {
    var groups := AddSkill(prev, s);
    assert |prev| <= |groups| <= |prev| + 1 && forall i :: 0 <= i < |prev| ==> groups[i].category == prev[i].category by {
      AddSkillEffect(prev, s);
    }
    forall i | 0 <= i < |prev|
      ensures FirstIndex(init + [s], groups[i].category) == FirstIndex(init, prev[i].category) < |init|
    {
      FirstIndexSnoc(init, s, prev[i].category);
    }
  }

  /** After one step every group holds exactly its category's skills. */
  lemma {:induction false} StepContents(prev: seq<CategoryGroup>, init: seq<Skill>, s: Skill)
    requires DistinctCategories(prev)
    requires forall g :: 0 <= g < |prev| ==> prev[g].skills == InCategory(init, prev[g].category)
    requires forall k :: 0 <= k < |init| ==> FindCategory(prev, init[k].category) < |prev|
    ensures forall i :: 0 <= i < |AddSkill(prev, s)| ==>
      AddSkill(prev, s)[i].skills == InCategory(init + [s], AddSkill(prev, s)[i].category)
  {
    forall i | 0 <= i < |AddSkill(prev, s)|
      ensures AddSkill(prev, s)[i].skills == InCategory(init + [s], AddSkill(prev, s)[i].category)
    {
      GroupSkills(prev, init, s, i);
    }
  }

  /** After one step every skill's category still has a group. */
  lemma {:induction false} StepCovers(prev: seq<CategoryGroup>, init: seq<Skill>, s: Skill)
    requires DistinctCategories(prev)
    requires forall k :: 0 <= k < |init| ==> FindCategory(prev, init[k].category) < |prev|
    ensures forall k :: 0 <= k < |init + [s]| ==>
      FindCategory(AddSkill(prev, s), (init + [s])[k].category) < |AddSkill(prev, s)|
  {
    var groups := AddSkill(prev, s);
    var skills := init + [s];
    AddSkillEffect(prev, s);
    forall k | 0 <= k < |skills|
      ensures FindCategory(groups, skills[k].category) < |groups|
    {
      if k < |init| {
        assert skills[k] == init[k];
        CategoryStaysFound(prev, s, init[k].category);
      }
    }
  }

  /** Grouping ends by adding the last skill to the groups of the others. */
  lemma {:induction false} LastStep(init: seq<Skill>, last: Skill)
    ensures GroupByCategory(init + [last]) == AddSkill(GroupByCategory(init), last)
  {
    assert (init + [last])[..|init|] == init;
  }

  lemma SnocSplit(skills: seq<Skill>)
    requires |skills| > 0
    ensures skills == skills[..|skills| - 1] + [skills[|skills| - 1]]
  {
  }

  /** The partition of the skills with one more at the end. */
  lemma {:induction false} PartitionSnoc(init: seq<Skill>, last: Skill)
    requires IsPartition(GroupByCategory(init), init)
    ensures IsPartition(GroupByCategory(init + [last]), init + [last])
  {
    LastStep(init, last);
    PartitionStep(GroupByCategory(init), init, last);
  }

  /** Grouping is a partition of the skills by category: categories are
      distinct, every skill's category has a group, every group holds
      exactly the skills of its category in their original order, and the
      group sizes add up to the number of skills. */
  lemma {:induction false} GroupByCategoryPartition(skills: seq<Skill>)
    ensures IsPartition(GroupByCategory(skills), skills)
    decreases |skills|
  {
    if |skills| > 0 {
      var init, last := skills[..|skills| - 1], skills[|skills| - 1];
      SnocSplit(skills);
      GroupByCategoryPartition(init);
      PartitionSnoc(init, last);
    }
  }

  /** The property names every plain object inherits from
      `Object.prototype`. Looking one of them up on the accumulator `{}`
      finds an inherited function or object rather than `undefined`. */
  const InheritedKeys: set<string> := {
    "constructor", "hasOwnProperty", "isPrototypeOf", "propertyIsEnumerable",
    "toLocaleString", "toString", "valueOf", "__proto__",
    "__defineGetter__", "__defineSetter__", "__lookupGetter__", "__lookupSetter__"
  }

  /** Some skill's category names an inherited property. */
  predicate HasInheritedCategory(skills: seq<Skill>) {
    exists k :: 0 <= k < |skills| && skills[k].category in InheritedKeys
  }

  /** `skillsByCategory` as the page computes it: the reduce into `{}`.
      For an inherited category the lookup is truthy, no array is made,
      and `push` on the inherited value throws, so the page has no groups
      to show (`None`). Otherwise the result is the category partition. */
  function SkillsByCategory(skills: seq<Skill>): (r: Option<seq<CategoryGroup>>)
    ensures r.None? <==> exists k :: 0 <= k < |skills| && skills[k].category in InheritedKeys
    ensures r.Some? ==> IsPartition(r.value, skills)
  {
    if HasInheritedCategory(skills) then None
    else
      GroupByCategoryPartition(skills);
      Some(GroupByCategory(skills))
  }

  /** The skills of a category after one more skill. */
  lemma {:induction false} InCategorySnoc(init: seq<Skill>, s: Skill, c: string)
    ensures InCategory(init + [s], c) == InCategory(init, c) + (if s.category == c then [s] else [])
  {
    FilterAppend(init, [s], (x: Skill) => x.category == c);
    assert [s][1..] == [];
  }

  /** A category no skill has selects nothing. */
  lemma {:induction false} InCategoryAbsent(skills: seq<Skill>, c: string)
    requires forall m :: 0 <= m < |skills| ==> skills[m].category != c
    ensures InCategory(skills, c) == []
  {
  }

  /** The inductive step for one group's contents, given the groups `prev`
      of the earlier skills `init`. */
  lemma {:induction false} GroupSkills(prev: seq<CategoryGroup>, init: seq<Skill>, s: Skill, i: nat)
    requires DistinctCategories(prev)
    requires forall g :: 0 <= g < |prev| ==> prev[g].skills == InCategory(init, prev[g].category)
    requires forall k :: 0 <= k < |init| ==> FindCategory(prev, init[k].category) < |prev|
    requires i < |AddSkill(prev, s)|
    ensures AddSkill(prev, s)[i].skills == InCategory(init + [s], AddSkill(prev, s)[i].category)
  {
    var groups := AddSkill(prev, s);
    AddSkillEffect(prev, s);
    var c := groups[i].category;
    InCategorySnoc(init, s, c);
    if i >= |prev| {
      // A new group: no earlier skill had this category.
      assert c == s.category && FindCategory(prev, c) == |prev|;
      InCategoryAbsent(init, c);
    }
  }

  // ---------------------------------------------------------------------
  // Work samples

  /** The three fixed work-sample headings. */
  const SampleCategories: seq<string> := ["Webflow Projects", "React & Next.js Applications", "Automation Projects"]

  /** The trajectory points shown under heading `catIdx`. */
  function WorkSampleBucket(trajectory: seq<TrajectoryPoint>, catIdx: nat): (bucket: seq<TrajectoryPoint>)
    ensures |bucket| <= 3
    ensures 2 * catIdx <= |trajectory| ==> bucket == trajectory[2 * catIdx .. Min(2 * catIdx + 3, |trajectory|)]
    ensures 2 * catIdx >= |trajectory| ==> bucket == []
  {
    Slice(trajectory, catIdx * 2, (catIdx + 1) * 2 + 1)
  }

  /** One bucket per heading. */
  function WorkSamples(trajectory: seq<TrajectoryPoint>): (buckets: seq<seq<TrajectoryPoint>>)
    ensures |buckets| == |SampleCategories| == 3
    ensures forall i :: 0 <= i < 3 ==> buckets[i] == WorkSampleBucket(trajectory, i)
  {
    seq(|SampleCategories|, i requires 0 <= i < |SampleCategories| => WorkSampleBucket(trajectory, i))
  }

  /** Adjacent buckets overlap in one point: the last point of a full
      bucket opens the next one. */
  lemma {:induction false} BucketsOverlap(trajectory: seq<TrajectoryPoint>, i: nat)
    requires 2 * i + 3 <= |trajectory|
    ensures var b := WorkSampleBucket(trajectory, i); var c := WorkSampleBucket(trajectory, i + 1);
      |b| == 3 && |c| >= 1 && b[2] == c[0]
  {
  }

  /** Every point up to index 6 appears in some bucket, and the point at
      position j of bucket i is trajectory[2i + j], whose index is at most
      6: later points never appear. */
  lemma {:induction false} BucketsCover(trajectory: seq<TrajectoryPoint>, k: nat)
    requires k < |trajectory|
    ensures k <= 6 ==> exists i, j :: 0 <= i < 3 && 0 <= j < |WorkSamples(trajectory)[i]| && WorkSamples(trajectory)[i][j] == trajectory[k]
    ensures forall i, j :: 0 <= i < 3 && 0 <= j < |WorkSamples(trajectory)[i]| ==>
      2 * i + j <= 6 && WorkSamples(trajectory)[i][j] == trajectory[2 * i + j]
  {
    if k <= 6 {
      var i := if k == 6 then 2 else k / 2;
      var j := k - 2 * i;
      assert WorkSamples(trajectory)[i] == WorkSampleBucket(trajectory, i);
      assert 0 <= j < |WorkSamples(trajectory)[i]| && WorkSamples(trajectory)[i][j] == trajectory[k];
    }
    var buckets := WorkSamples(trajectory);
    forall i, j | 0 <= i < 3 && 0 <= j < |buckets[i]|
      ensures 2 * i + j <= 6 && buckets[i][j] == trajectory[2 * i + j]
    {
      var b := WorkSampleBucket(trajectory, i);
      assert buckets[i] == b;
      assert 2 * i < |trajectory|;
      assert b == trajectory[2 * i .. Min(2 * i + 3, |trajectory|)];
    }
  }

  // ---------------------------------------------------------------------
  // Impact bullets

  /** A piece whose trimmed text is truthy: it holds a non-space. */
  predicate NotBlank(piece: string) {
    !AllSpace(piece)
  }

  /** Not blank is exactly "trims to something". */
  lemma NotBlankTrims(piece: string)
    ensures NotBlank(piece) <==> Trim(piece) != ""
  {
  }

  /** The bullets of an experience's impact text: the pieces between full
      stops that are not blank, trimmed. */
  function ImpactBullets(impact: string): (bullets: seq<string>)
    ensures forall i :: 0 <= i < |bullets| ==> bullets[i] != "" && '.' !in bullets[i]
    ensures forall i :: 0 <= i < |bullets| ==> !IsSpace(bullets[i][0]) && !IsSpace(bullets[i][|bullets[i]| - 1])
    ensures |bullets| <= |Split(impact, '.')|
  {
    TrimAll(Filter(Split(impact, '.'), NotBlank))
  }

  /** Every piece trimmed, in order. */
  function TrimAll(pieces: seq<string>): (r: seq<string>)
    ensures |r| == |pieces|
    ensures forall i :: 0 <= i < |pieces| ==> r[i] == Trim(pieces[i])
  {
    seq(|pieces|, i requires 0 <= i < |pieces| => Trim(pieces[i]))
  }

  /** A trimmed, non-empty piece without full stops. */
  predicate IsSentence(t: string) {
    t != "" && '.' !in t && !IsSpace(t[0]) && !IsSpace(t[|t| - 1])
  }

  /** A piece of prose between full stops that the filter keeps. */
  predicate IsClause(t: string) {
    NotBlank(t) && '.' !in t
  }

  /** Trimming leaves sentences as they are. */
  lemma {:induction false} SentencesTrimmed(pieces: seq<string>)
    requires forall i :: 0 <= i < |pieces| ==> IsSentence(pieces[i])
    ensures TrimAll(pieces) == pieces
  {
    forall i | 0 <= i < |pieces| ensures Trim(pieces[i]) == pieces[i] {
      TrimTrimmed(pieces[i]);
    }
  }

  /** Pieces joined by full stops come back as the bullets: the blank
      pieces, such as the one between the stops of "a. .b", are dropped and
      the others trimmed, in order. */
  lemma {:induction false} ImpactBulletsOfPieces(parts: seq<string>)
    requires |parts| >= 1
    requires forall i :: 0 <= i < |parts| ==> '.' !in parts[i]
    ensures ImpactBullets(Join(parts, ".")) == TrimAll(Filter(parts, NotBlank))
  {
    SplitJoin(parts, '.');
  }

  /** Clauses joined by full stops come back as the bullets, each one
      trimmed: "Led team. Shipped it" gives "Led team" and "Shipped it". */
  lemma {:induction false} ImpactBulletsOfClauses(clauses: seq<string>)
    requires |clauses| >= 1
    requires forall i :: 0 <= i < |clauses| ==> IsClause(clauses[i])
    ensures ImpactBullets(Join(clauses, ".")) == TrimAll(clauses)
  {
    SplitJoin(clauses, '.');
    FilterKeepsAll(clauses, NotBlank);
  }

  /** Clauses joined by full stops and closed by one more split into the
      clauses and an empty tail. */
  lemma {:induction false} ClosingStopPieces(clauses: seq<string>)
    requires |clauses| >= 1
    requires forall i :: 0 <= i < |clauses| ==> '.' !in clauses[i]
    ensures Split(Join(clauses, ".") + ".", '.') == clauses + [""]
  {
    ClosingStopJoin(clauses);
    StopFreeTail(clauses);
    SplitJoin(clauses + [""], '.');
  }

  /** Joining with an empty tail appends one full stop. */
  lemma {:induction false} ClosingStopJoin(clauses: seq<string>)
    requires |clauses| >= 1
    ensures Join(clauses + [""], ".") == Join(clauses, ".") + "."
  {
    JoinSnoc(clauses, "", ".");
    assert Join(clauses, ".") + "." + "" == Join(clauses, ".") + ".";
  }

  /** Clauses with an empty tail contain no full stop. */
  lemma {:induction false} StopFreeTail(clauses: seq<string>)
    requires forall i :: 0 <= i < |clauses| ==> '.' !in clauses[i]
    ensures forall i :: 0 <= i < |clauses + [""]| ==> '.' !in (clauses + [""])[i]
  {
    var parts := clauses + [""];
    forall i | 0 <= i < |parts| ensures '.' !in parts[i] {
      if i < |clauses| { assert parts[i] == clauses[i]; }
    }
  }

  /** The empty tail is dropped as blank, and the clauses are kept. */
  lemma {:induction false} EmptyTailDropped(clauses: seq<string>)
    requires forall i :: 0 <= i < |clauses| ==> NotBlank(clauses[i])
    ensures Filter(clauses + [""], NotBlank) == clauses
  {
    FilterKeepsAll(clauses, NotBlank);
    FilterAppend(clauses, [""], NotBlank);
    assert Filter([""], NotBlank) == [];
  }

  /** The same holds when the text ends with a closing full stop. */
  lemma {:induction false} ImpactBulletsOfClausesClosingStop(clauses: seq<string>)
    requires |clauses| >= 1
    requires forall i :: 0 <= i < |clauses| ==> IsClause(clauses[i])
    ensures ImpactBullets(Join(clauses, ".") + ".") == TrimAll(clauses)
  {
    ClosingStopPieces(clauses);
    EmptyTailDropped(clauses);
  }

  /** Ordinary prose: "Led team. Shipped it." gives two bullets, the
      second without the space that followed the first full stop. */
  lemma {:induction false} ImpactBulletsOfProse()
    ensures ImpactBullets("Led team" + "." + " Shipped it" + ".") == ["Led team", "Shipped it"]
  {
    var clauses := ["Led team", " Shipped it"];
    ProseJoin(clauses);
    ProseClauses(clauses);
    ImpactBulletsOfClausesClosingStop(clauses);
    ProseTrimmed(clauses);
  }

  lemma JoinPair(a: string, b: string, sep: string)
    ensures Join([a, b], sep) == a + sep + b
  {
    assert [a, b][1..] == [b];
  }

  lemma ProseJoin(clauses: seq<string>)
    requires clauses == ["Led team", " Shipped it"]
    ensures Join(clauses, ".") + "." == "Led team" + "." + " Shipped it" + "."
  {
    JoinPair("Led team", " Shipped it", ".");
  }

  lemma ProseClauses(clauses: seq<string>)
    requires clauses == ["Led team", " Shipped it"]
    ensures forall i :: 0 <= i < |clauses| ==> IsClause(clauses[i])
  {
    assert IsClause("Led team") by { assert !IsSpace("Led team"[0]); }
    assert IsClause(" Shipped it") by { assert !IsSpace(" Shipped it"[1]); }
  }

  lemma ProseTrimmed(clauses: seq<string>)
    requires clauses == ["Led team", " Shipped it"]
    ensures TrimAll(clauses) == ["Led team", "Shipped it"]
  {
    assert LeadingSpaces("Shipped it") == 0;
    assert LeadingSpaces(" Shipped it") == 1 by {
      assert " Shipped it"[1..] == "Shipped it";
    }
    assert TrailingSpaces(" Shipped it") == 0;
    assert TrailingSpaces("Led team") == 0;
    assert LeadingSpaces("Led team") == 0;
    assert Trim(" Shipped it") == "Shipped it";
    assert Trim("Led team") == "Led team";
  }

  /** Sentences that are already trimmed come back unchanged. */
  lemma {:induction false} ImpactBulletsRoundTrip(sentences: seq<string>)
    requires |sentences| >= 1
    requires forall i :: 0 <= i < |sentences| ==> IsSentence(sentences[i])
    ensures ImpactBullets(Join(sentences, ".")) == sentences
    ensures ImpactBullets(Join(sentences, ".") + ".") == sentences
  {
    ImpactBulletsOfClauses(sentences);
    ImpactBulletsOfClausesClosingStop(sentences);
    SentencesTrimmed(sentences);
  }

  // ---------------------------------------------------------------------
  // Name

  /** The hero heading's two lines: the name up to its first space, and
      everything after that space. */
  datatype DisplayName = DisplayName(first: string, rest: string)

  function SplitName(name: string): (d: DisplayName)
    ensures ' ' !in d.first
    ensures ' ' in name ==> d.first + " " + d.rest == name
    ensures ' ' !in name ==> d.first == name && d.rest == ""
  {
    var parts := Split(name, ' ');
    var d := DisplayName(parts[0], Join(parts[1..], " "));
    if ' ' in name then
      d
    else
      SplitNoSep(name, ' ');
      d
  }

  // ---------------------------------------------------------------------
  // Tag lists

  /** Skill tags on an experience card: the profile's first four skills. */
  function ExperienceTags(skills: seq<Skill>): (tags: seq<Skill>)
    ensures |tags| == Min(4, |skills|)
    ensures tags == skills[..|tags|]
  {
    Slice(skills, 0, 4)
  }

  /** Skill tags on the work-sample card at position `pIdx` of its bucket:
      up to five skills starting at `pIdx`. */
  function ProjectTags(skills: seq<Skill>, pIdx: nat): (tags: seq<Skill>)
    ensures |tags| <= 5
    ensures pIdx <= |skills| ==> tags == skills[pIdx .. Min(pIdx + 5, |skills|)]
    ensures pIdx >= |skills| ==> tags == []
  {
    Slice(skills, pIdx, pIdx + 5)
  }
}
