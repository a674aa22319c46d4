/** The groups of a tournament tree held level by level, as the tree
    tournament handler keeps them, and the edits of the base level. */
module GroupLevels {
  import opened Entities

  /** The groups of a tournament by level, level 0 first: the levels of the
      tree are 0 .. |levels| - 1 and a level's list is in index order, so a
      group's index is its position. A level without groups holds []. */
  type Levels = seq<seq<Group>>

  /** Every group of `groups` belongs to `level`. */
  ghost predicate OfLevel(groups: seq<Group>, level: nat)
  {
    forall g :: g in groups ==> g.level == level
  }

  /** Every group is stored under its own level. */
  ghost predicate LevelsTagged(m: Levels)
  {
    forall level :: 0 <= level < |m| ==> OfLevel(m[level], level)
  }

  /** The number of groups at each level. */
  function LevelCounts(m: Levels): (c: seq<nat>)
    ensures |c| == |m|
    ensures forall level :: 0 <= level < |m| ==> c[level] == |m[level]|
  {
    seq(|m|, level requires 0 <= level < |m| => |m[level]|)
  }

  function HeightFrom(m: Levels, from: nat): (h: nat)
    requires from <= |m|
    ensures from <= h <= |m|
    ensures forall level :: from <= level < h ==> m[level] != []
    ensures h < |m| ==> m[h] == []
    decreases |m| - from
  {
    if from == |m| || m[from] == [] then from else HeightFrom(m, from + 1)
  }

  /** The number of levels holding groups, counted from level 0 up to the first
      level without groups. */
  function Height(m: Levels): (h: nat)
    ensures h <= |m|
    ensures forall level :: 0 <= level < h ==> m[level] != []
    ensures h < |m| ==> m[h] == []
  {
    HeightFrom(m, 0)
  }

  /** No level above the first level without groups holds groups: the levels
      holding groups are 0 .. Height(m) - 1. */
  ghost predicate Packed(m: Levels)
  {
    forall level :: Height(m) <= level < |m| ==> m[level] == []
  }

  /** The group counts of the levels holding groups: the shape of the tree. */
  function Shape(m: Levels): seq<nat>
  {
    LevelCounts(m)[..Height(m)]
  }

  predicate Contains(m: Levels, ref: GroupRef)
  {
    ref.level < |m| && ref.index < |m[ref.level]|
  }

  function GroupAt(m: Levels, ref: GroupRef): Group
    requires Contains(m, ref)
  {
    m[ref.level][ref.index]
  }

  /** Two arrangements of groups with as many levels and as many groups at each. */
  ghost predicate SameShape(a: Levels, b: Levels)
  {
    |a| == |b| && forall level :: 0 <= level < |a| ==> |a[level]| == |b[level]|
  }

  /** The store after a base group is added at the end of level 0. */
  function WithBaseGroup(m: Levels, group: Group): (r: Levels)
    ensures |r| == if |m| == 0 then 1 else |m|
    ensures r[0] == (if |m| == 0 then [] else m[0]) + [group]
    ensures forall level :: 1 <= level < |m| ==> r[level] == m[level]
  {
    if |m| == 0 then [[group]] else m[0 := m[0] + [group]]
  }

  /** The store after deleteGroupByLevelAndIndex: the group at `index` of level 0
      is removed and the later ones move down one place; any other level, or
      an index without a group, deletes nothing. */
  function DeleteBaseGroup(m: Levels, level: int, index: int): (r: Levels)
    ensures |r| == |m|
    ensures forall other :: 1 <= other < |m| ==> r[other] == m[other]
    ensures level == 0 && |m| > 0 && 0 <= index < |m[0]| ==> r[0] == m[0][..index] + m[0][index + 1..]
    ensures !(level == 0 && |m| > 0 && 0 <= index < |m[0]|) ==> r == m
  {
    if level == 0 && |m| > 0 && 0 <= index < |m[0]| then m[0 := m[0][..index] + m[0][index + 1..]] else m
  }

  /** Replacing the groups of a level, or adding the level after the last, by
      groups of that level keeps every group under its own level. */
  lemma ReplaceLevel(m: Levels, level: nat, groups: seq<Group>)
    requires LevelsTagged(m) && level <= |m|
    requires OfLevel(groups, level)
    ensures level < |m| ==> LevelsTagged(m[level := groups])
    ensures level == |m| ==> LevelsTagged(m + [groups])
  {
  }

  /** When the levels 0 .. height - 1 hold groups and no level above does, the
      height of the tree is `height`. */
  lemma HeightIs(m: Levels, height: nat)
    requires height <= |m|
    requires forall l :: 0 <= l < height ==> m[l] != []
    requires forall l :: height <= l < |m| ==> m[l] == []
    ensures Height(m) == height
  {
    HeightFromIs(m, 0, height);
  }

  lemma {:induction false} HeightFromIs(m: Levels, from: nat, height: nat)
    requires from <= height <= |m|
    requires forall l :: from <= l < height ==> m[l] != []
    requires height < |m| ==> m[height] == []
    ensures HeightFrom(m, from) == height
    decreases height - from
  {
    if from < height {
      HeightFromIs(m, from + 1, height);
    }
  }

  /** The deletion of a base group keeps every group under its own level. */
  lemma DeleteKeepsTags(m: Levels, groupLevel: int, groupIndex: int)
    requires LevelsTagged(m)
    ensures LevelsTagged(DeleteBaseGroup(m, groupLevel, groupIndex))
  {
    if groupLevel == 0 && |m| > 0 && 0 <= groupIndex < |m[0]| {
      assert OfLevel(m[0], 0);
      var kept := m[0][..groupIndex] + m[0][groupIndex + 1..];
      assert forall g :: g in kept ==> g in m[0];
    }
  }
}
