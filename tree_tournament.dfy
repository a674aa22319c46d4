/** The tree tournament handler: the groups of a tournament tree stored level by
    level, the resizing of the inner levels when a base group is added or
    removed, the population of the next level with the winners of the groups
    that feed it, and the creation of that level's fights. */
module TreeTournamentHandler {
  import opened Entities
  import opened TreeShape
  import opened GroupLevels
  import opened LevelPopulation
  import JavaIntegers

  // ---------------------------------------------------------------------------
  // The tournament's number of winners
  // ---------------------------------------------------------------------------

  /** getNumberOfWinners: the NUMBER_OF_WINNERS extra property read with
      Integer.parseInt; 1 when the property is missing or does not parse. */
  function GetNumberOfWinners(property: Option<string>): (w: int)
    ensures property.None? ==> w == 1
    ensures property.Some? && JavaIntegers.ParseInt(property.value).Some? ==> w == JavaIntegers.ParseInt(property.value).value
    ensures property.Some? && JavaIntegers.ParseInt(property.value).None? ==> w == 1
    ensures JavaIntegers.IntMin <= w <= JavaIntegers.IntMax
  {
    if property.None? then 1
    else match JavaIntegers.ParseInt(property.value)
      case Some(value) => value
      case None => 1
  }

  /** A number of winners stored as its decimal text is read back unchanged. */
  lemma NumberOfWinnersRoundTrip(w: int)
    requires JavaIntegers.IntMin <= w <= JavaIntegers.IntMax
    ensures GetNumberOfWinners(Some(JavaIntegers.IntToString(w))) == w
  {
    JavaIntegers.ParseIntRoundTrip(w);
  }

  /** A missing property and a property that is not a number both mean one winner. */
  lemma NumberOfWinnersDefaults()
    ensures GetNumberOfWinners(None) == 1
    ensures GetNumberOfWinners(Some("")) == 1
    ensures GetNumberOfWinners(Some("two")) == 1
  {
    JavaIntegers.ParseIntRejects();
  }

  /** The groups of a level once the growing walk has passed it. */
  ghost function GrownGroups(groups: seq<Group>, counts: seq<nat>, numberOfWinners: int, level: nat): (r: seq<Group>)
    requires level < |counts|
    ensures |groups| == counts[level] ==> |r| == Grown(counts, numberOfWinners, level)
  {
    groups + (if Grown(counts, numberOfWinners, level) > counts[level] then [NewGroup(level)] else [])
  }

  /** The levels once the growing walk has passed the levels below `level`. */
  ghost function GrownUpTo(before: Levels, counts: seq<nat>, numberOfWinners: int, level: nat): (r: Levels)
    requires level <= |counts| <= |before|
    ensures |r| == |before|
    ensures forall l :: 0 <= l < level ==> r[l] == GrownGroups(before[l], counts, numberOfWinners, l)
    ensures forall l :: level <= l < |before| ==> r[l] == before[l]
  {
    seq(|before|, l requires 0 <= l < |before| =>
      if l < level then GrownGroups(before[l], counts, numberOfWinners, l) else before[l])
  }

  /** The growing walk adds a group to a level exactly when the growing rule
      gives the level one more group. */
  lemma GrowthDecision(counts: seq<nat>, numberOfWinners: int, level: nat, previousLevelSize: int)
    requires level < |counts|
    requires previousLevelSize == if level == 0 then 0 else Grown(counts, numberOfWinners, level - 1)
    ensures Grown(counts, numberOfWinners, level) > counts[level]
            <==> counts[level] < GrowthBound(previousLevelSize, level, numberOfWinners)
  {
  }

  /** One more step of the growing walk changes the level it visits and no other. */
  lemma GrowStep(before: Levels, counts: seq<nat>, numberOfWinners: int, level: nat)
    requires level < |counts| <= |before|
    ensures GrownUpTo(before, counts, numberOfWinners, level + 1)
            == GrownUpTo(before, counts, numberOfWinners, level)[level := GrownGroups(before[level], counts, numberOfWinners, level)]
  {
  }

  /** A level of one new group placed at `height`: after the last level, or in
      place of the first level without groups. */
  function NewLevel(m: Levels, height: nat): (r: Levels)
    requires height <= |m|
    ensures |r| == if height == |m| then |m| + 1 else |m|
    ensures r[height] == [NewGroup(height)]
    ensures forall level :: 0 <= level < |m| && level != height ==> r[level] == m[level]
  {
    if height == |m| then m + [[NewGroup(height)]] else m[height := [NewGroup(height)]]
  }

  /** The levels adjustGroupsSize leaves: every level holding groups grown by
      the walk, then the new final level when the last level holds more than
      one group, or when there is a single level and several winners. */
  ghost function Adjusted(before: Levels, numberOfWinners: int): Levels
    requires Height(before) > 0
  {
    var height := Height(before);
    var walked := GrownUpTo(before, Shape(before), numberOfWinners, height);
    if |walked[height - 1]| > 1 || (height == 1 && numberOfWinners > 1) then NewLevel(walked, height) else walked
  }

  /** Once the walk has passed every level holding groups, only the new final
      level remains to be decided. */
  lemma AdjustedAfterWalk(before: Levels, numberOfWinners: int, walked: Levels)
    requires Height(before) > 0
    requires walked == GrownUpTo(before, Shape(before), numberOfWinners, Height(before))
    ensures |walked[Height(before) - 1]| > 1 || (Height(before) == 1 && numberOfWinners > 1)
            ==> Adjusted(before, numberOfWinners) == NewLevel(walked, Height(before))
    ensures !(|walked[Height(before) - 1]| > 1 || (Height(before) == 1 && numberOfWinners > 1))
            ==> Adjusted(before, numberOfWinners) == walked
  {
  }

  /** The levels the growing walk passes hold as many groups as the growing
      rule gives them, and the walk leaves the other levels alone. */
  lemma WalkedCounts(before: Levels, numberOfWinners: int, height: nat, counts: seq<nat>)
    requires 0 < height == Height(before) && counts == Shape(before)
    ensures var walked := GrownUpTo(before, counts, numberOfWinners, height);
            forall l :: 0 <= l < height ==> |walked[l]| == Grown(counts, numberOfWinners, l) > 0
  {
    var walked := GrownUpTo(before, counts, numberOfWinners, height);
    forall l | 0 <= l < height
      ensures |walked[l]| == Grown(counts, numberOfWinners, l) > 0
    {
      assert |before[l]| == counts[l] > 0;
    }
  }

  /** adjustGroupsSize resizes the tree as the growing rule says: the group
      counts of the levels holding groups become AdjustedCounts of the old ones,
      and the levels holding groups still form the bottom of the tree. */
  lemma AdjustedShape(before: Levels, numberOfWinners: int)
    requires Height(before) > 0 && Packed(before)
    ensures Packed(Adjusted(before, numberOfWinners))
    ensures Shape(Adjusted(before, numberOfWinners)) == AdjustedCounts(Shape(before), numberOfWinners)
  {
    var adjusted := AdjustedCounts(Shape(before), numberOfWinners);
    var after := Adjusted(before, numberOfWinners);
    AdjustedLevels(before, numberOfWinners, adjusted, after);
    HeightIs(after, |adjusted|);
    var shape := Shape(after);
    assert |shape| == |adjusted|;
    assert forall l :: 0 <= l < |adjusted| ==> shape[l] == |after[l]| == adjusted[l];
  }

  /** The level by level counts behind AdjustedShape. */
  lemma AdjustedLevels(before: Levels, numberOfWinners: int, adjusted: seq<nat>, after: Levels)
    requires Height(before) > 0 && Packed(before)
    requires adjusted == AdjustedCounts(Shape(before), numberOfWinners)
    requires after == Adjusted(before, numberOfWinners)
    ensures |adjusted| <= |after|
    ensures forall l :: 0 <= l < |adjusted| ==> |after[l]| == adjusted[l] && after[l] != []
    ensures forall l :: |adjusted| <= l < |after| ==> after[l] == []
  {
    var height := Height(before);
    var counts := Shape(before);
    var walked := GrownUpTo(before, counts, numberOfWinners, height);
    WalkedCounts(before, numberOfWinners, height, counts);
    AdjustedLength(counts, numberOfWinners);
    AdjustedAfterWalk(before, numberOfWinners, walked);
    assert |counts| == height;
    forall l | 0 <= l < |adjusted|
      ensures l < |after| && |after[l]| == adjusted[l] && after[l] != []
    {
      if l < height {
        assert after[l] == walked[l];
      }
    }
    forall l | |adjusted| <= l < |after|
      ensures after[l] == []
    {
      assert after[l] == walked[l] == before[l];
    }
  }

  /** adjustGroupsSize keeps every group it had at its index and adds only new
      empty groups, each at the end of its level. */
  lemma AdjustedKeepsGroups(before: Levels, numberOfWinners: int)
    requires Height(before) > 0
    ensures |Adjusted(before, numberOfWinners)| >= |before|
    ensures forall l :: 0 <= l < |before| ==>
              var after := Adjusted(before, numberOfWinners)[l];
              |before[l]| <= |after| <= |before[l]| + 1
              && after[..|before[l]|] == before[l]
              && (|after| > |before[l]| ==> after[|before[l]|] == NewGroup(l))
  {
    var height := Height(before);
    var counts := Shape(before);
    var walked := GrownUpTo(before, counts, numberOfWinners, height);
    forall l | 0 <= l < |before|
      ensures walked[l][..|before[l]|] == before[l] && |before[l]| <= |walked[l]| <= |before[l]| + 1
    {
      if l < height {
        assert |before[l]| == counts[l];
      }
    }
  }

  /** The groups adjustGroupsSize creates belong to the level they are put in. */
  lemma AdjustedKeepsTags(before: Levels, numberOfWinners: int)
    requires Height(before) > 0 && LevelsTagged(before)
    ensures LevelsTagged(Adjusted(before, numberOfWinners))
  {
    var height := Height(before);
    var walked := GrownUpTo(before, Shape(before), numberOfWinners, height);
    forall l | 0 <= l < |walked|
      ensures OfLevel(walked[l], l)
    {
      assert OfLevel(before[l], l);
    }
  }

  /** The levels once the trimming walk has passed the levels below `level`. */
  ghost function TrimmedUpTo(deleted: Levels, counts: seq<nat>, numberOfWinners: int, level: nat): (r: Levels)
    requires level <= |deleted| && counts == LevelCounts(deleted)
    ensures |r| == |deleted|
    ensures forall l :: 0 <= l < level ==> r[l] == deleted[l][..Trimmed(counts, numberOfWinners, l)]
    ensures forall l :: level <= l < |deleted| ==> r[l] == deleted[l]
  {
    seq(|deleted|, l requires 0 <= l < |deleted| =>
      if l < level then deleted[l][..Trimmed(counts, numberOfWinners, l)] else deleted[l])
  }

  /** The trimming walk drops the last group of a level it visits exactly when
      the trimming rule holds, and a level without groups leaves the previous
      size as it was. */
  lemma TrimDecision(counts: seq<nat>, numberOfWinners: int, level: nat, previousLevelSize: int)
    requires level < |counts| && previousLevelSize == TrimPrevious(counts, numberOfWinners, level)
    ensures counts[level] > 0 ==>
              Trimmed(counts, numberOfWinners, level)
              == (if ShouldTrim(counts[level], previousLevelSize, level, numberOfWinners) then counts[level] - 1 else counts[level])
    ensures counts[level] > 0 ==> TrimPrevious(counts, numberOfWinners, level + 1) == Trimmed(counts, numberOfWinners, level)
    ensures counts[level] == 0 ==>
              Trimmed(counts, numberOfWinners, level) == 0 && TrimPrevious(counts, numberOfWinners, level + 1) == previousLevelSize
  {
  }

  /** One more step of the trimming walk changes the level it visits and no other. */
  lemma TrimStep(deleted: Levels, counts: seq<nat>, numberOfWinners: int, level: nat)
    requires level < |deleted| && counts == LevelCounts(deleted)
    ensures TrimmedUpTo(deleted, counts, numberOfWinners, level + 1)
            == TrimmedUpTo(deleted, counts, numberOfWinners, level)[level := deleted[level][..Trimmed(counts, numberOfWinners, level)]]
  {
  }

  /** The trimming walk over a whole arrangement of levels. */
  ghost function TrimmedLevels(deleted: Levels, numberOfWinners: int): Levels
  {
    TrimmedUpTo(deleted, LevelCounts(deleted), numberOfWinners, |deleted|)
  }

  /** The levels removeGroup leaves: the requested base group deleted, then
      every level trimmed by the walk. */
  ghost function Removed(before: Levels, groupLevel: int, groupIndex: int, numberOfWinners: int): Levels
  {
    TrimmedLevels(DeleteBaseGroup(before, groupLevel, groupIndex), numberOfWinners)
  }

  /** The trimming walk drops groups only from the end of a level, one at most
      per level, as the trimming rule counts them. */
  lemma TrimmedShape(deleted: Levels, numberOfWinners: int)
    ensures LevelCounts(TrimmedLevels(deleted, numberOfWinners)) == TrimmedCounts(LevelCounts(deleted), numberOfWinners)
    ensures forall l :: 0 <= l < |deleted| ==>
              var after := TrimmedLevels(deleted, numberOfWinners)[l];
              after == deleted[l][..|after|] && |deleted[l]| <= |after| + 1
  {
  }

  /** Dropping groups from the end of levels keeps every group under its own level. */
  lemma RemovedKeepsTags(deleted: Levels, numberOfWinners: int)
    requires LevelsTagged(deleted)
    ensures LevelsTagged(TrimmedLevels(deleted, numberOfWinners))
  {
    var after := TrimmedLevels(deleted, numberOfWinners);
    forall l | 0 <= l < |after|
      ensures OfLevel(after[l], l)
    {
      assert OfLevel(deleted[l], l);
    }
  }

  // ---------------------------------------------------------------------------
  // The canonical tree kept by adding and removing base groups
  // ---------------------------------------------------------------------------

  /** The store holds the canonical tree over `b` base groups, and no group
      above it. */
  ghost predicate CanonicalTree(m: Levels, b: nat, numberOfWinners: int)
  {
    Packed(m) && Shape(m) == CanonicalCounts(b, numberOfWinners)
  }

  /** Adding a base group to a store whose levels holding groups form the
      bottom of the tree only makes level 0 one group larger. */
  lemma BaseGroupAddedShape(m: Levels, group: Group)
    requires Packed(m) && Height(m) > 0
    ensures Packed(WithBaseGroup(m, group))
    ensures Shape(WithBaseGroup(m, group)) == Shape(m)[0 := |m[0]| + 1]
  {
    var r := WithBaseGroup(m, group);
    HeightIs(r, Height(m));
  }

  /** addGroup on the canonical tree over `b` base groups leaves the canonical
      tree over `b + 1` base groups. */
  lemma AddGroupKeepsCanonical(m: Levels, group: Group, b: nat, numberOfWinners: int)
    requires b >= 1 && (numberOfWinners == 1 || numberOfWinners == 2)
    requires CanonicalTree(m, b, numberOfWinners)
    ensures Height(WithBaseGroup(m, group)) > 0
    ensures CanonicalTree(Adjusted(WithBaseGroup(m, group), numberOfWinners), b + 1, numberOfWinners)
  {
    var counts := CanonicalCounts(b, numberOfWinners);
    assert Shape(m)[0] == counts[0] == b;
    BaseGroupAddedShape(m, group);
    var before := WithBaseGroup(m, group);
    assert Shape(before) == counts[0 := b + 1];
    AdjustedShape(before, numberOfWinners);
    AddingKeepsCanonical(b, numberOfWinners);
  }

  /** addGroup on a store without groups, such as the one the constructor
      creates, leaves the canonical tree over one base group, so the
      canonical shape holds from the first group on. */
  lemma FirstAddIsCanonical(m: Levels, group: Group, numberOfWinners: int)
    requires numberOfWinners == 1 || numberOfWinners == 2
    requires Packed(m) && Height(m) == 0
    ensures Height(WithBaseGroup(m, group)) > 0
    ensures CanonicalTree(Adjusted(WithBaseGroup(m, group), numberOfWinners), 1, numberOfWinners)
  {
    var before := WithBaseGroup(m, group);
    HeightIs(before, 1);
    assert Shape(before) == [1];
    AdjustedShape(before, numberOfWinners);
    FirstGroupCanonical(numberOfWinners);
  }

  /** The group counts of every level of a store whose levels holding groups
      form the bottom of the tree: its shape, then empty levels. */
  lemma PackedCounts(m: Levels)
    requires Packed(m)
    ensures forall l :: Height(m) <= l < |m| ==> LevelCounts(m)[l] == 0
    ensures LevelCounts(m)[..Height(m)] == Shape(m)
  {
  }

  /** removeGroup of a base group on the canonical tree over `b + 1` base
      groups leaves the canonical tree over `b` base groups (for a base level
      below half the sentinel the walk starts with). */
  lemma RemoveGroupKeepsCanonical(m: Levels, groupIndex: int, b: nat, numberOfWinners: int)
    requires 1 <= b <= (RemovalSentinel + 1) / 2 && (numberOfWinners == 1 || numberOfWinners == 2)
    requires CanonicalTree(m, b + 1, numberOfWinners)
    requires 0 <= groupIndex <= b
    ensures CanonicalTree(Removed(m, 0, groupIndex, numberOfWinners), b, numberOfWinners)
  {
    var smaller := CanonicalCounts(b, numberOfWinners);
    var after := Removed(m, 0, groupIndex, numberOfWinners);
    RemovedCanonicalCounts(m, groupIndex, b, numberOfWinners);
    forall l | 0 <= l < |smaller|
      ensures after[l] != []
    {
      assert smaller[l] >= 1 by {
        ChainPositive(b, if numberOfWinners == 2 && l > 0 then l - 1 else l);
      }
    }
    HeightIs(after, |smaller|);
    assert Shape(after) == smaller;
  }

  /** The level by level counts behind RemoveGroupKeepsCanonical. */
  lemma RemovedCanonicalCounts(m: Levels, groupIndex: int, b: nat, numberOfWinners: int)
    requires 1 <= b <= (RemovalSentinel + 1) / 2 && (numberOfWinners == 1 || numberOfWinners == 2)
    requires CanonicalTree(m, b + 1, numberOfWinners)
    requires 0 <= groupIndex <= b
    ensures |CanonicalCounts(b, numberOfWinners)| <= |Removed(m, 0, groupIndex, numberOfWinners)|
    ensures forall l :: 0 <= l < |Removed(m, 0, groupIndex, numberOfWinners)| ==>
              |Removed(m, 0, groupIndex, numberOfWinners)[l]|
              == if l < |CanonicalCounts(b, numberOfWinners)| then CanonicalCounts(b, numberOfWinners)[l] else 0
  {
    var larger := CanonicalCounts(b + 1, numberOfWinners);
    var n := |larger|;
    assert Shape(m)[0] == b + 1 && Height(m) == n;
    var deleted := DeleteBaseGroup(m, 0, groupIndex);
    var counts := LevelCounts(deleted);
    PackedCounts(m);
    assert counts[..n] == Reduced(b, numberOfWinners);
    var after := TrimmedLevels(deleted, numberOfWinners);
    TrimmedShape(deleted, numberOfWinners);
    RemovingKeepsCanonical(b, numberOfWinners);
    var smaller := CanonicalCounts(b, numberOfWinners);
    assert |smaller| <= n by { ChainLengthStep(b); }
    forall l | 0 <= l < |after|
      ensures |after[l]| == if l < |smaller| then smaller[l] else 0
    {
      if l < n {
        TrimmedPrefix(counts, n, numberOfWinners, l);
        assert TrimmedCounts(Reduced(b, numberOfWinners), numberOfWinners)[l] == Trimmed(counts[..n], numberOfWinners, l);
      } else {
        assert counts[l] == 0;
      }
    }
  }

  /** removeGroup of the only base group: with one winner the store is left
      without groups; with two the level-1 group of the canonical tree stays,
      above an empty level 0. */
  lemma RemoveOnlyBaseGroup(m: Levels, numberOfWinners: int)
    requires numberOfWinners == 1 || numberOfWinners == 2
    requires CanonicalTree(m, 1, numberOfWinners)
    ensures numberOfWinners == 1 ==> forall l :: 0 <= l < |m| ==> Removed(m, 0, 0, numberOfWinners)[l] == []
    ensures numberOfWinners == 2 ==>
              Removed(m, 0, 0, numberOfWinners)[0] == []
              && |m[1]| == 1 && Removed(m, 0, 0, numberOfWinners)[1] == m[1]
  {
    var n := CanonicalLength(1, numberOfWinners);
    assert Shape(m)[0] == 1 && Height(m) == n;
    var deleted := DeleteBaseGroup(m, 0, 0);
    var counts := LevelCounts(deleted);
    PackedCounts(m);
    assert counts[..n] == Reduced(0, numberOfWinners);
    var after := Removed(m, 0, 0, numberOfWinners);
    TrimmedShape(deleted, numberOfWinners);
    RemovingOnlyBaseGroup(numberOfWinners);
    forall l | 0 <= l < |after|
      ensures |after[l]| == if numberOfWinners == 2 && l == 1 then 1 else 0
    {
      if l < n {
        TrimmedPrefix(counts, n, numberOfWinners, l);
        assert TrimmedCounts(Reduced(0, numberOfWinners), numberOfWinners)[l] == Trimmed(counts[..n], numberOfWinners, l);
      } else {
        assert counts[l] == 0;
      }
    }
    if numberOfWinners == 2 {
      assert deleted[1] == m[1] && |m[1]| == 1;
      assert after[1] == deleted[1][..|after[1]|];
    }
  }

  /** The growing walk of adjustGroupsSize over the levels holding groups:
      from level 0 upwards, a level receives one more group when it holds
      fewer groups than the growth bound of the previous, already grown, level. */
  method GrowWalk(before: Levels, numberOfWinners: int) returns (levels: Levels)
    ensures levels == GrownUpTo(before, Shape(before), numberOfWinners, Height(before))
  {
    var counts := Shape(before);
    levels := before;
    var previousLevelSize := 0;
    var level: nat := 0;
    while level < |counts|
      invariant level <= |counts|
      invariant levels == GrownUpTo(before, counts, numberOfWinners, level)
      invariant previousLevelSize == if level == 0 then 0 else |levels[level - 1]|
    {
      levels, previousLevelSize := GrowLevel(before, counts, numberOfWinners, levels, level, previousLevelSize);
      level := level + 1;
    }
  }

  /** One step of the growing walk: the level it visits receives one more
      group when it holds fewer groups than the growth bound of the previous
      level's size. */
  method GrowLevel(before: Levels, counts: seq<nat>, numberOfWinners: int, levels: Levels, level: nat, previousLevelSize: int)
    returns (next: Levels, levelSize: int)
    requires counts == Shape(before) && level < |counts|
    requires levels == GrownUpTo(before, counts, numberOfWinners, level)
    requires previousLevelSize == if level == 0 then 0 else |levels[level - 1]|
    ensures next == GrownUpTo(before, counts, numberOfWinners, level + 1)
    ensures levelSize == |next[level]| == Grown(counts, numberOfWinners, level)
  {
    var levelGroups := levels[level];
    assert levelGroups == before[level] && |levelGroups| == counts[level];
    assert level > 0 ==> |before[level - 1]| == counts[level - 1];
    GrowthDecision(counts, numberOfWinners, level, previousLevelSize);
    next := levels;
    if |levelGroups| < GrowthBound(previousLevelSize, level, numberOfWinners) {
      next := levels[level := levelGroups + [NewGroup(level)]];
    }
    assert next[level] == GrownGroups(before[level], counts, numberOfWinners, level);
    GrowStep(before, counts, numberOfWinners, level);
    levelSize := |next[level]|;
  }

  /** The trimming walk of removeGroup: from level 0 upwards over the levels
      holding groups, a level loses its last group when the trimming rule
      holds for its size and the size the previous visited level was left
      with. */
  method TrimWalk(deleted: Levels, numberOfWinners: int) returns (levels: Levels)
    ensures levels == TrimmedLevels(deleted, numberOfWinners)
  {
    levels := deleted;
    ghost var counts := LevelCounts(deleted);
    var levelCount := |levels|;
    var previousLevelSize := RemovalSentinel;
    var level: nat := 0;
    while level < levelCount
      invariant level <= levelCount == |deleted|
      invariant levels == TrimmedUpTo(deleted, counts, numberOfWinners, level)
      invariant previousLevelSize == TrimPrevious(counts, numberOfWinners, level)
    {
      var levelGroups := levels[level];
      assert levelGroups == deleted[level] && |levelGroups| == counts[level];
      TrimDecision(counts, numberOfWinners, level, previousLevelSize);
      // A level without groups is not among the levels the walk visits.
      if |levelGroups| > 0 {
        if (numberOfWinners == 1 || level > 1)
           && (previousLevelSize == 1 || |levelGroups| > (previousLevelSize + 1) / 2) {
          levelGroups := levelGroups[..|levelGroups| - 1];
        } else if numberOfWinners == 2 && |levelGroups| > previousLevelSize {
          levelGroups := levelGroups[..|levelGroups| - 1];
        }
        previousLevelSize := |levelGroups|;
      }
      assert levelGroups == deleted[level][..Trimmed(counts, numberOfWinners, level)];
      levels := levels[level := levelGroups];
      TrimStep(deleted, counts, numberOfWinners, level);
      level := level + 1;
    }
  }

  // ---------------------------------------------------------------------------
  // The store
  // ---------------------------------------------------------------------------

  class GroupStore {
    /** The groups of the tournament, by level. */
    var groupsByLevel: Levels

    ghost predicate Valid()
      reads this
    {
      LevelsTagged(groupsByLevel)
    }

    constructor()
      ensures groupsByLevel == [] && Valid()
    {
      groupsByLevel := [];
    }

    /** adjustGroupsSize: walks the levels holding groups upwards, giving a level
        one more group when it holds fewer than half (rounded down) of the
        previous level's groups plus one, times the number of winners at level
        1; then opens a new level of one group above the last one when that
        level holds more than one group, or when there is a single level and
        more than one team of each group advances. */
    method AdjustGroupsSize(numberOfWinners: int)
      requires Valid() && Packed(groupsByLevel) && Height(groupsByLevel) > 0
      modifies this
      ensures Valid()
      ensures groupsByLevel == Adjusted(old(groupsByLevel), numberOfWinners)
    {
      // The walk works on the levels as read from the store; the groups it
      // creates are stored with them.
      ghost var before := groupsByLevel;
      var height := Height(groupsByLevel);
      var levels := GrowWalk(groupsByLevel, numberOfWinners);
      AdjustedAfterWalk(before, numberOfWinners, levels);
      if |levels[height - 1]| > 1 || (height == 1 && numberOfWinners > 1) {
        levels := NewLevel(levels, height);
      }
      AdjustedKeepsTags(before, numberOfWinners);
      groupsByLevel := levels;
    }

    /** addGroup: only a base group can be added; it goes at the end of level 0
        and the inner levels are resized for the tournament's number of
        winners. A group of a higher level is refused and nothing changes. */
    method AddGroup(group: Group, numberOfWinnersProperty: Option<string>) returns (r: Result<Group, TournamentError>)
      requires Valid()
      requires group.level == 0 ==> Packed(WithBaseGroup(groupsByLevel, group))
      modifies this
      ensures Valid()
      ensures group.level > 0 ==> r == Failure(InvalidGroup) && groupsByLevel == old(groupsByLevel)
      ensures group.level == 0 ==>
                r == Success(group)
                && Height(WithBaseGroup(old(groupsByLevel), group)) > 0
                && groupsByLevel == Adjusted(WithBaseGroup(old(groupsByLevel), group), GetNumberOfWinners(numberOfWinnersProperty))
    {
      if group.level > 0 {
        return Failure(InvalidGroup);
      }
      groupsByLevel := WithBaseGroup(groupsByLevel, group);
      assert groupsByLevel[0] != [];
      AdjustGroupsSize(GetNumberOfWinners(numberOfWinnersProperty));
      return Success(group);
    }

    /** removeGroup: only a base group can be removed. After the deletion the
        levels holding groups are walked upwards and each loses its last group
        when it holds more than half (rounded up) of the previous level's groups
        or the previous level holds a single group (with one winner, or above
        level 1), or when it is level 1 with two winners and holds more groups
        than the previous level. A group of a higher level is refused and
        nothing changes. */
    method RemoveGroup(groupLevel: int, groupIndex: int, numberOfWinnersProperty: Option<string>)
      returns (r: Outcome<TournamentError>)
      requires Valid()
      modifies this
      ensures Valid()
      ensures groupLevel > 0 ==> r == Fail(InvalidGroup) && groupsByLevel == old(groupsByLevel)
      ensures groupLevel <= 0 ==>
                r == Pass
                && groupsByLevel == Removed(old(groupsByLevel), groupLevel, groupIndex, GetNumberOfWinners(numberOfWinnersProperty))
    {
      if groupLevel > 0 {
        return Fail(InvalidGroup);
      }
      DeleteKeepsTags(groupsByLevel, groupLevel, groupIndex);
      groupsByLevel := DeleteBaseGroup(groupsByLevel, groupLevel, groupIndex);
      var numberOfWinners := GetNumberOfWinners(numberOfWinnersProperty);
      // The walk works on the levels as read from the store after the
      // deletion; the groups it drops are deleted from the store with them.
      var levels := TrimWalk(groupsByLevel, numberOfWinners);
      RemovedKeepsTags(groupsByLevel, numberOfWinners);
      groupsByLevel := levels;
      return Pass;
    }

    /** populateLevel: the links into `level` are processed in order. Each
        passes the draw guard on its source group's ranking, then appends the
        team at position `winner` of that ranking to its destination group
        (a ranking without that position is skipped). The touched groups are
        saved together once every link has passed; a draw stops the
        population and the store keeps its groups. */
    method PopulateLevel(level: int, links: seq<GroupLink>, ranking: GroupRef -> seq<ScoreOfTeam>)
      returns (r: Outcome<TournamentError>)
      requires Valid()
      modifies this
      ensures Valid()
      ensures PopulateLinks(old(groupsByLevel), LevelLinks(links, level), ranking).Success? ==>
                r == Pass && groupsByLevel == PopulateLinks(old(groupsByLevel), LevelLinks(links, level), ranking).value
      ensures PopulateLinks(old(groupsByLevel), LevelLinks(links, level), ranking).Failure? ==>
                r == Fail(PopulateLinks(old(groupsByLevel), LevelLinks(links, level), ranking).error)
                && groupsByLevel == old(groupsByLevel)
    {
      var levelLinks := LevelLinks(links, level);
      // The destination groups are changed in memory and saved at the end.
      var levels := groupsByLevel;
      for i := 0 to |levelLinks|
        invariant groupsByLevel == old(groupsByLevel)
        invariant PopulateLinks(levels, levelLinks[i..], ranking) == PopulateLinks(groupsByLevel, levelLinks, ranking)
      {
        var link := levelLinks[i];
        assert levelLinks[i..][0] == link && levelLinks[i..][1..] == levelLinks[i + 1..];
        var teamsRanking := ranking(link.source);
        var check := CheckDrawScore(teamsRanking, link.winner);
        if check.Fail? {
          return check;
        }
        if 0 <= link.winner < |teamsRanking| {
          levels := WithTeam(levels, link.destination, teamsRanking[link.winner].team);
        }
      }
      assert levelLinks[|levelLinks|..] == [];
      PopulateKeepsTags(groupsByLevel, levelLinks, ranking);
      groupsByLevel := levels;
      return Pass;
    }

    /** createFights: every group of `level`, in index order, receives the
        fights `generate` makes from its teams (the fight manager
        getMaxGroupFights selects), is saved, and its fights are appended to
        the returned list. */
    method CreateFights(level: int, generate: seq<Team> -> seq<Fight>) returns (createdFights: seq<Fight>)
      requires Valid()
      modifies this
      ensures Valid()
      ensures createdFights == FightsCreated(old(groupsByLevel), level, generate)
      ensures groupsByLevel == WithLevelFights(old(groupsByLevel), level, generate)
    {
      createdFights := [];
      if level < 0 || level >= |groupsByLevel| {
        return;
      }
      ghost var before := groupsByLevel;
      var groups := groupsByLevel[level];
      var levelGroups := groups;
      for index := 0 to |groups|
        invariant |levelGroups| == |groups|
        invariant forall k :: 0 <= k < index ==> levelGroups[k] == groups[k].(fights := generate(groups[k].teams))
        invariant forall k :: index <= k < |groups| ==> levelGroups[k] == groups[k]
        invariant groupsByLevel == before[level := levelGroups]
        invariant createdFights + LevelFights(groups[index..], generate) == LevelFights(groups, generate)
      {
        assert groups[index..][1..] == groups[index + 1..];
        var fights := generate(levelGroups[index].teams);
        levelGroups := levelGroups[index := levelGroups[index].(fights := fights)];
        groupsByLevel := groupsByLevel[level := levelGroups];
        assert createdFights + fights + LevelFights(groups[index + 1..], generate)
               == createdFights + (fights + LevelFights(groups[index + 1..], generate));
        createdFights := createdFights + fights;
      }
      assert groups[|groups|..] == [];
      assert levelGroups == WithFights(groups, generate);
      assert OfLevel(groups, level);
      WithFightsKeepsTags(groups, level, generate);
      ReplaceLevel(before, level, levelGroups);
    }

    /** generateNextFights: the first group of the store's list without teams
        names the level to fill; with none, no fights are generated. Otherwise
        that level is populated with the winners of the groups that feed it
        and its fights are created. A draw stops it with the store unchanged. */
    method GenerateNextFights(links: seq<GroupLink>, ranking: GroupRef -> seq<ScoreOfTeam>, generate: seq<Team> -> seq<Fight>)
      returns (r: Result<seq<Fight>, TournamentError>)
      requires Valid()
      modifies this
      ensures Valid()
      ensures NextEmptyLevel(AllGroups(old(groupsByLevel))).None? ==>
                r == Success([]) && groupsByLevel == old(groupsByLevel)
      ensures NextEmptyLevel(AllGroups(old(groupsByLevel))).Some? ==>
                var level := NextEmptyLevel(AllGroups(old(groupsByLevel))).value;
                var populated := PopulateLinks(old(groupsByLevel), LevelLinks(links, level), ranking);
                (populated.Failure? ==> r == Failure(populated.error) && groupsByLevel == old(groupsByLevel))
                && (populated.Success? ==>
                      r == Success(FightsCreated(populated.value, level, generate))
                      && groupsByLevel == WithLevelFights(populated.value, level, generate))
    {
      var tournamentGroups := AllGroups(groupsByLevel);
      var nextLevel := GetNextEmptyLevel(tournamentGroups);
      if nextLevel.None? {
        return Success([]);
      }
      var populated := PopulateLevel(nextLevel.value, links, ranking);
      if populated.Fail? {
        return Failure(populated.error);
      }
      var fights := CreateFights(nextLevel.value, generate);
      return Success(fights);
    }
  }
}
