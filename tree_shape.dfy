/** The shape of a tournament tree, as the number of groups at each level
    (level 0 first), and the two resizing rules of the tree tournament handler:
    growing the inner levels after a base group is added, and trimming them
    after a base group is removed. The methods of TreeTournamentHandler.GroupStore
    are proved to follow these functions. */
module TreeShape {

  /** Java's Integer.MAX_VALUE. */
  const IntMax: int := 2147483647

  /** The value removeGroup starts `previousLevelSize` with. */
  const RemovalSentinel: int := IntMax - 1

  /** Java's `a / 2` on int, which truncates toward zero. */
  function JavaHalf(a: int): (r: int)
    ensures a >= 0 ==> 0 <= a - 2 * r <= 1
    ensures a < 0 ==> 0 <= 2 * r - a <= 1
  {
    if a >= 0 then a / 2 else -((-a) / 2)
  }

  // ---------------------------------------------------------------------------
  // Growing (adjustGroupsSize)
  // ---------------------------------------------------------------------------

  /** Level 1 receives `numberOfWinners` teams from each base group; deeper levels one. */
  function Multiplier(level: int, numberOfWinners: int): int
  {
    if level == 1 then numberOfWinners else 1
  }

  /** A level grows while its size is below this bound: half, rounded toward
      zero, of the previous level's size plus one, times the multiplier. */
  function GrowthBound(previousLevelSize: int, level: int, numberOfWinners: int): (r: int)
    ensures previousLevelSize >= 0 && (level != 1 || numberOfWinners == 1) ==>
              previousLevelSize <= 2 * r <= previousLevelSize + 1
    ensures previousLevelSize >= 0 && level == 1 && numberOfWinners == 2 ==> r == previousLevelSize + 1
  {
    JavaHalf((previousLevelSize + 1) * Multiplier(level, numberOfWinners))
  }

  /** The size of `level` once the growing loop has passed it: one more group
      when its size is below the bound computed from the already grown
      previous level (0 before level 0). */
  function Grown(counts: seq<nat>, numberOfWinners: int, level: nat): (r: nat)
    requires level < |counts|
    ensures counts[level] <= r <= counts[level] + 1
    ensures level == 0 ==> r == counts[0]
    decreases level
  {
    var previous := if level == 0 then 0 else Grown(counts, numberOfWinners, level - 1);
    if counts[level] < GrowthBound(previous, level, numberOfWinners) then counts[level] + 1 else counts[level]
  }

  function GrownLevels(counts: seq<nat>, numberOfWinners: int): (r: seq<nat>)
    ensures |r| == |counts|
    ensures forall level :: 0 <= level < |counts| ==> r[level] == Grown(counts, numberOfWinners, level)
  {
    seq(|counts|, level requires 0 <= level < |counts| => Grown(counts, numberOfWinners, level))
  }

  /** A new final level is needed when the last level holds several groups, or
      when there is a single level and more than one team of it advances. */
  predicate NeedsNewLevel(grown: seq<nat>, numberOfWinners: int)
    requires |grown| > 0
  {
    grown[|grown| - 1] > 1 || (|grown| == 1 && numberOfWinners > 1)
  }

  /** The sizes after adjustGroupsSize: the grown levels, plus a final level of
      one group when it is needed. */
  function AdjustedCounts(counts: seq<nat>, numberOfWinners: int): (r: seq<nat>)
    requires |counts| > 0
    ensures |r| == |counts| || (|r| == |counts| + 1 && r[|counts|] == 1)
    ensures r[0] == counts[0]
    ensures forall level :: 0 <= level < |counts| ==> counts[level] <= r[level] <= counts[level] + 1
  {
    var grown := GrownLevels(counts, numberOfWinners);
    if NeedsNewLevel(grown, numberOfWinners) then grown + [1] else grown
  }

  /** A final level is added exactly when the grown last level holds more than
      one group, or when there is a single level and several winners. */
  lemma AdjustedLength(counts: seq<nat>, numberOfWinners: int)
    requires |counts| > 0
    ensures |AdjustedCounts(counts, numberOfWinners)| ==
              if Grown(counts, numberOfWinners, |counts| - 1) > 1 || (|counts| == 1 && numberOfWinners > 1)
              then |counts| + 1 else |counts|
  {
    var grown := GrownLevels(counts, numberOfWinners);
    assert grown[|grown| - 1] == Grown(counts, numberOfWinners, |counts| - 1);
  }

  // ---------------------------------------------------------------------------
  // Trimming (removeGroup)
  // ---------------------------------------------------------------------------

  /** The trimming condition of one level, given the size the previous visited
      level was left with: the "half rounded up" rule, which applies to every
      level with one winner per group and to every level above 1, and the
      "no bigger than the previous level" rule of level 1 with two winners. */
  predicate ShouldTrim(size: int, previousLevelSize: int, level: int, numberOfWinners: int)
  {
    ((numberOfWinners == 1 || level > 1) && (previousLevelSize == 1 || size > (previousLevelSize + 1) / 2))
    || (numberOfWinners == 2 && size > previousLevelSize)
  }

  /** The `previousLevelSize` the trimming loop holds when it reaches `level`:
      the sentinel before the first visited level, and the trimmed size of the
      last visited one. A level without groups is not visited at all. */
  function TrimPrevious(counts: seq<nat>, numberOfWinners: int, level: nat): (r: int)
    requires level <= |counts|
    ensures r >= 0
    decreases level, 0
  {
    if level == 0 then RemovalSentinel
    else if counts[level - 1] == 0 then TrimPrevious(counts, numberOfWinners, level - 1)
    else Trimmed(counts, numberOfWinners, level - 1)
  }

  /** The size of `level` once the trimming loop has passed it. */
  function Trimmed(counts: seq<nat>, numberOfWinners: int, level: nat): (r: nat)
    requires level < |counts|
    ensures r <= counts[level] <= r + 1
    decreases level, 1
  {
    if counts[level] > 0 && ShouldTrim(counts[level], TrimPrevious(counts, numberOfWinners, level), level, numberOfWinners)
    then counts[level] - 1
    else counts[level]
  }

  function TrimmedCounts(counts: seq<nat>, numberOfWinners: int): (r: seq<nat>)
    ensures |r| == |counts|
    ensures forall level :: 0 <= level < |counts| ==> r[level] == Trimmed(counts, numberOfWinners, level)
  {
    seq(|counts|, level requires 0 <= level < |counts| => Trimmed(counts, numberOfWinners, level))
  }

  /** The trimming of a level depends only on the levels up to it. */
  lemma {:induction false} TrimmedPrefix(counts: seq<nat>, n: nat, numberOfWinners: int, level: nat)
    requires level < n <= |counts|
    ensures Trimmed(counts, numberOfWinners, level) == Trimmed(counts[..n], numberOfWinners, level)
    ensures TrimPrevious(counts, numberOfWinners, level) == TrimPrevious(counts[..n], numberOfWinners, level)
    decreases level
  {
    if level > 0 {
      TrimmedPrefix(counts, n, numberOfWinners, level - 1);
    }
  }

  /** The trimming never removes a group, nor adds one, at level 0 while it holds
      fewer groups than half the sentinel; every other level loses at most one. */
  lemma TrimmingKeepsBaseLevel(counts: seq<nat>, numberOfWinners: int)
    requires |counts| > 0 && counts[0] <= (RemovalSentinel + 1) / 2
    ensures TrimmedCounts(counts, numberOfWinners)[0] == counts[0]
    ensures forall level :: 0 <= level < |counts| ==>
              TrimmedCounts(counts, numberOfWinners)[level] <= counts[level] <= TrimmedCounts(counts, numberOfWinners)[level] + 1
  {
    assert TrimPrevious(counts, numberOfWinners, 0) == RemovalSentinel;
  }

  // ---------------------------------------------------------------------------
  // The canonical tree: every level holds half (rounded up) of the previous one
  // ---------------------------------------------------------------------------

  function Halved(x: nat): nat
  {
    (x + 1) / 2
  }

  /** The size of `level` in the chain of halvings that starts with `b`. */
  function ChainAt(b: nat, level: nat): nat
  {
    if level == 0 then b else Halved(ChainAt(b, level - 1))
  }

  /** The number of levels until (and including) the first level of one group. */
  function ChainLength(b: nat): (n: nat)
    ensures n >= 1
    decreases b
  {
    if b <= 1 then 1 else 1 + ChainLength(Halved(b))
  }

  /** The level sizes of the canonical tree over `b` base groups: with one
      winner per group each level halves the previous one (rounded up) down to
      a single final group; with two winners level 1 is as large as level 0. */
  function CanonicalAt(b: nat, numberOfWinners: int, level: nat): nat
  {
    if numberOfWinners == 2 then (if level == 0 then b else ChainAt(b, level - 1)) else ChainAt(b, level)
  }

  function CanonicalLength(b: nat, numberOfWinners: int): nat
  {
    if numberOfWinners == 2 then ChainLength(b) + 1 else ChainLength(b)
  }

  function CanonicalCounts(b: nat, numberOfWinners: int): (r: seq<nat>)
    ensures |r| == CanonicalLength(b, numberOfWinners)
    ensures forall level :: 0 <= level < |r| ==> r[level] == CanonicalAt(b, numberOfWinners, level)
  {
    seq(CanonicalLength(b, numberOfWinners), level requires 0 <= level => CanonicalAt(b, numberOfWinners, level))
  }

  /** The canonical tree over `b` base groups whose base level has received
      one more group. */
  function Enlarged(b: nat, numberOfWinners: int): (r: seq<nat>)
    ensures |r| == CanonicalLength(b, numberOfWinners) && r[0] == b + 1
    ensures forall level :: 1 <= level < |r| ==> r[level] == CanonicalAt(b, numberOfWinners, level)
  {
    CanonicalCounts(b, numberOfWinners)[0 := b + 1]
  }

  /** The canonical tree over `b + 1` base groups whose base level has lost one
      group. */
  function Reduced(b: nat, numberOfWinners: int): (r: seq<nat>)
    ensures |r| == CanonicalLength(b + 1, numberOfWinners) && r[0] == b
    ensures forall level :: 1 <= level < |r| ==> r[level] == CanonicalAt(b + 1, numberOfWinners, level)
  {
    CanonicalCounts(b + 1, numberOfWinners)[0 := b]
  }

  lemma {:induction false} ChainShift(b: nat, level: nat)
    ensures ChainAt(Halved(b), level) == ChainAt(b, level + 1)
  {
    if level > 0 {
      ChainShift(b, level - 1);
    }
  }

  lemma {:induction false} ChainPositive(b: nat, level: nat)
    requires b >= 1
    ensures ChainAt(b, level) >= 1
  {
    if level > 0 {
      ChainPositive(b, level - 1);
    }
  }

  /** The chain reaches one group exactly at its last level. */
  lemma {:induction false} ChainEnd(b: nat)
    requires b >= 1
    ensures ChainAt(b, ChainLength(b) - 1) == 1
    ensures forall level :: 0 <= level < ChainLength(b) - 1 ==> ChainAt(b, level) >= 2
  {
    if b > 1 {
      ChainEnd(Halved(b));
      ChainShift(b, ChainLength(b) - 2);
      forall level | 0 < level < ChainLength(b) - 1
        ensures ChainAt(b, level) >= 2
      {
        ChainShift(b, level - 1);
      }
    }
  }

  /** Any level that is the first to hold one group gives the chain's length. */
  lemma ChainLengthUnique(b: nat, n: nat)
    requires b >= 1 && n >= 1
    requires ChainAt(b, n - 1) == 1
    requires forall level :: 0 <= level < n - 1 ==> ChainAt(b, level) >= 2
    ensures ChainLength(b) == n
  {
    ChainEnd(b);
  }

  /** One more base group changes every level of the chain by at most one group. */
  lemma {:induction false} ChainStep(b: nat, level: nat)
    ensures ChainAt(b, level) <= ChainAt(b + 1, level) <= ChainAt(b, level) + 1
  {
    if level > 0 {
      ChainStep(b, level - 1);
    }
  }

  /** One more base group lengthens the chain by one level exactly when the old
      last level grows to two groups. */
  lemma ChainLengthStep(b: nat)
    requires b >= 1
    ensures ChainAt(b + 1, ChainLength(b) - 1) == 1 ==> ChainLength(b + 1) == ChainLength(b)
    ensures ChainAt(b + 1, ChainLength(b) - 1) == 2 ==> ChainLength(b + 1) == ChainLength(b) + 1
    ensures 1 <= ChainAt(b + 1, ChainLength(b) - 1) <= 2
  {
    var n := ChainLength(b);
    var larger := b + 1;
    ChainEnd(b);
    ChainStep(b, n - 1);
    forall level | 0 <= level < n - 1
      ensures ChainAt(larger, level) >= 2
    {
      ChainStep(b, level);
    }
    if ChainAt(b + 1, n - 1) == 1 {
      ChainLengthUnique(b + 1, n);
    } else {
      ChainLengthUnique(b + 1, n + 1);
    }
  }

  /** ChainLengthStep for the canonical tree: it gains a level exactly when the
      old last level grows to two groups. */
  lemma CanonicalLengthStep(b: nat, numberOfWinners: int)
    requires b >= 1
    ensures ChainAt(b + 1, ChainLength(b) - 1) == 1
            ==> CanonicalLength(b + 1, numberOfWinners) == CanonicalLength(b, numberOfWinners)
    ensures ChainAt(b + 1, ChainLength(b) - 1) == 2
            ==> CanonicalLength(b + 1, numberOfWinners) == CanonicalLength(b, numberOfWinners) + 1
  {
    ChainLengthStep(b);
  }

  /** Growing, level by level, the canonical tree over `b` base groups whose
      base level has received one more group yields the canonical tree over
      `b + 1` base groups. */
  lemma {:induction false} GrownFollowsCanonical(b: nat, numberOfWinners: int, level: nat)
    requires b >= 1 && (numberOfWinners == 1 || numberOfWinners == 2)
    requires level < CanonicalLength(b, numberOfWinners)
    ensures Grown(Enlarged(b, numberOfWinners), numberOfWinners, level)
            == CanonicalAt(b + 1, numberOfWinners, level)
  {
    if level > 0 {
      GrownFollowsCanonical(b, numberOfWinners, level - 1);
      GrownCanonicalStep(b, numberOfWinners, level);
    }
  }

  /** One level of the growing of the enlarged canonical tree, given the grown
      size of the previous level. */
  lemma GrownCanonicalStep(b: nat, numberOfWinners: int, level: nat)
    requires b >= 1 && (numberOfWinners == 1 || numberOfWinners == 2)
    requires 0 < level < CanonicalLength(b, numberOfWinners)
    requires Grown(Enlarged(b, numberOfWinners), numberOfWinners, level - 1)
             == CanonicalAt(b + 1, numberOfWinners, level - 1)
    ensures Grown(Enlarged(b, numberOfWinners), numberOfWinners, level)
            == CanonicalAt(b + 1, numberOfWinners, level)
  {
    if numberOfWinners == 2 && level == 1 {
      GrownSecondLevel(b);
    } else {
      GrownHalvingLevel(b, numberOfWinners, level);
    }
  }

  /** With two winners per group, level 1 of the enlarged canonical tree grows
      to as many groups as the new base level. */
  lemma GrownSecondLevel(b: nat)
    requires b >= 1
    ensures Grown(Enlarged(b, 2), 2, 1) == b + 1
  {
    var counts := Enlarged(b, 2);
    assert Grown(counts, 2, 0) == b + 1;
    assert GrowthBound(b + 1, 1, 2) == b + 2;
    assert counts[1] == b;
  }

  /** A halving level of the enlarged canonical tree grows to the halving of
      the grown previous level. */
  lemma GrownHalvingLevel(b: nat, numberOfWinners: int, level: nat)
    requires b >= 1 && (numberOfWinners == 1 || numberOfWinners == 2)
    requires 0 < level < CanonicalLength(b, numberOfWinners)
    requires !(numberOfWinners == 2 && level == 1)
    requires Grown(Enlarged(b, numberOfWinners), numberOfWinners, level - 1)
             == CanonicalAt(b + 1, numberOfWinners, level - 1)
    ensures Grown(Enlarged(b, numberOfWinners), numberOfWinners, level)
            == CanonicalAt(b + 1, numberOfWinners, level)
  {
    var counts := Enlarged(b, numberOfWinners);
    var x := CanonicalAt(b, numberOfWinners, level - 1);
    var y := CanonicalAt(b + 1, numberOfWinners, level - 1);
    assert x <= y <= x + 1 by {
      ChainStep(b, if numberOfWinners == 2 then level - 2 else level - 1);
    }
    assert counts[level] == Halved(x);
    assert CanonicalAt(b + 1, numberOfWinners, level) == Halved(y);
    assert GrowthBound(y, level, numberOfWinners) == Halved(y);
  }

  /** The grown levels of the enlarged canonical tree are the first levels of
      the canonical tree over one more base group. */
  lemma GrownLevelsFollowCanonical(b: nat, numberOfWinners: int)
    requires b >= 1 && (numberOfWinners == 1 || numberOfWinners == 2)
    ensures CanonicalLength(b, numberOfWinners) <= CanonicalLength(b + 1, numberOfWinners)
            && GrownLevels(Enlarged(b, numberOfWinners), numberOfWinners)
               == CanonicalCounts(b + 1, numberOfWinners)[..CanonicalLength(b, numberOfWinners)]
  {
    var counts := Enlarged(b, numberOfWinners);
    var grown := GrownLevels(counts, numberOfWinners);
    var expected := CanonicalCounts(b + 1, numberOfWinners);
    ChainLengthStep(b);
    forall level | 0 <= level < |counts|
      ensures grown[level] == expected[level]
    {
      GrownFollowsCanonical(b, numberOfWinners, level);
    }
  }

  /** The last level of a canonical tree holds a single group. */
  lemma CanonicalLast(b: nat, numberOfWinners: int)
    requires b >= 1 && (numberOfWinners == 1 || numberOfWinners == 2)
    ensures CanonicalCounts(b, numberOfWinners)[CanonicalLength(b, numberOfWinners) - 1] == 1
  {
    ChainEnd(b);
  }

  /** Adding a base group to a canonical tree (one or two winners per group)
      and adjusting the inner levels yields the canonical tree over one more
      base group. */
  lemma AddingKeepsCanonical(b: nat, numberOfWinners: int)
    requires b >= 1 && (numberOfWinners == 1 || numberOfWinners == 2)
    ensures AdjustedCounts(Enlarged(b, numberOfWinners), numberOfWinners)
            == CanonicalCounts(b + 1, numberOfWinners)
  {
    GrownLevelsFollowCanonical(b, numberOfWinners);
    EnlargedNeedsNewLevel(b, numberOfWinners);
    AdjustedFromGrown(Enlarged(b, numberOfWinners), numberOfWinners, CanonicalCounts(b + 1, numberOfWinners));
  }

  /** The first base group of an empty tree, once adjusted, is the canonical
      tree over one base group: a single level with one winner, a level-1
      group above it with two. */
  lemma FirstGroupCanonical(numberOfWinners: int)
    requires numberOfWinners == 1 || numberOfWinners == 2
    ensures AdjustedCounts([1], numberOfWinners) == CanonicalCounts(1, numberOfWinners)
  {
    assert GrownLevels([1], numberOfWinners) == [1];
  }

  /** The growing of the enlarged canonical tree asks for a new final level
      exactly when the canonical tree over one more base group is one level
      longer, and that level holds a single group. */
  lemma EnlargedNeedsNewLevel(b: nat, numberOfWinners: int)
    requires b >= 1 && (numberOfWinners == 1 || numberOfWinners == 2)
    ensures var m := CanonicalLength(b, numberOfWinners);
            var grown := GrownLevels(Enlarged(b, numberOfWinners), numberOfWinners);
            (NeedsNewLevel(grown, numberOfWinners) ==> (CanonicalLength(b + 1, numberOfWinners) == m + 1 && CanonicalCounts(b + 1, numberOfWinners)[m] == 1))
            && (!NeedsNewLevel(grown, numberOfWinners) ==> CanonicalLength(b + 1, numberOfWinners) == m)
  {
    var m := CanonicalLength(b, numberOfWinners);
    var last := ChainAt(b + 1, ChainLength(b) - 1);
    LastGrown(b, numberOfWinners);
    ChainLengthStep(b);
    CanonicalLengthStep(b, numberOfWinners);
    if last == 2 {
      CanonicalLast(b + 1, numberOfWinners);
    }
  }

  /** The grown last level of the enlarged canonical tree is the old last
      level of the chain over one more base group. */
  lemma LastGrown(b: nat, numberOfWinners: int)
    requires b >= 1 && (numberOfWinners == 1 || numberOfWinners == 2)
    ensures CanonicalLength(b, numberOfWinners) >= (if numberOfWinners == 2 then 2 else 1)
    ensures GrownLevels(Enlarged(b, numberOfWinners), numberOfWinners)[CanonicalLength(b, numberOfWinners) - 1]
            == ChainAt(b + 1, ChainLength(b) - 1)
  {
    var m := CanonicalLength(b, numberOfWinners);
    GrownFollowsCanonical(b, numberOfWinners, m - 1);
    assert GrownLevels(Enlarged(b, numberOfWinners), numberOfWinners)[m - 1]
           == CanonicalAt(b + 1, numberOfWinners, m - 1);
    if numberOfWinners == 2 {
      assert m - 1 == ChainLength(b);
    } else {
      assert m - 1 == ChainLength(b) - 1;
    }
  }

  /** AdjustedCounts over any counts whose grown levels are known: the grown
      levels, followed by a final level of one group exactly when one is needed. */
  lemma AdjustedFromGrown(counts: seq<nat>, numberOfWinners: int, expected: seq<nat>)
    requires 0 < |counts| <= |expected| <= |counts| + 1
    requires GrownLevels(counts, numberOfWinners) == expected[..|counts|]
    requires |expected| == |counts| + 1 ==> expected[|counts|] == 1 && NeedsNewLevel(GrownLevels(counts, numberOfWinners), numberOfWinners)
    requires |expected| == |counts| ==> !NeedsNewLevel(GrownLevels(counts, numberOfWinners), numberOfWinners)
    ensures AdjustedCounts(counts, numberOfWinners) == expected
  {
    if |expected| == |counts| + 1 {
      AppendLast(GrownLevels(counts, numberOfWinners), expected);
    }
  }

  /** A sequence is its prefix followed by its last element. */
  lemma AppendLast(prefix: seq<nat>, whole: seq<nat>)
    requires |whole| == |prefix| + 1 && prefix == whole[..|prefix|] && whole[|prefix|] == 1
    ensures prefix + [1] == whole
  {
  }

  /** One level of the trimming of the reduced canonical tree, given the
      trimmed size of the previous level. */
  lemma TrimmedStep(b: nat, numberOfWinners: int, level: nat)
    requires 1 <= b <= (RemovalSentinel + 1) / 2 && (numberOfWinners == 1 || numberOfWinners == 2)
    requires 1 <= level < CanonicalLength(b + 1, numberOfWinners)
    requires level - 1 < CanonicalLength(b, numberOfWinners)
    requires Trimmed(Reduced(b, numberOfWinners), numberOfWinners, level - 1)
             == CanonicalAt(b, numberOfWinners, level - 1)
    ensures Trimmed(Reduced(b, numberOfWinners), numberOfWinners, level)
            == if level < CanonicalLength(b, numberOfWinners) then CanonicalAt(b, numberOfWinners, level) else 0
  {
    var m := CanonicalLength(b, numberOfWinners);
    TrimmedPreviousVisited(b, numberOfWinners, level);
    if numberOfWinners == 2 && level == 1 {
      TrimmedSecondLevel(b);
    } else if level < m {
      ChainLengthStep(b);
      TrimmedInnerStep(b, numberOfWinners, level);
    } else {
      TrimmedExtraLevel(b, numberOfWinners, level);
    }
  }

  /** The level before `level` holds groups in the reduced canonical tree, so
      the trimming loop reaches `level` with its trimmed size. */
  lemma TrimmedPreviousVisited(b: nat, numberOfWinners: int, level: nat)
    requires 1 <= b && (numberOfWinners == 1 || numberOfWinners == 2)
    requires 1 <= level < CanonicalLength(b + 1, numberOfWinners)
    ensures TrimPrevious(Reduced(b, numberOfWinners), numberOfWinners, level)
            == Trimmed(Reduced(b, numberOfWinners), numberOfWinners, level - 1)
  {
    var counts := Reduced(b, numberOfWinners);
    assert counts[level - 1] >= 1 by {
      ChainPositive(b + 1, if numberOfWinners == 2 && level >= 2 then level - 2 else level - 1);
    }
  }

  /** With two winners per group, level 1 of the reduced canonical tree is
      trimmed to as many groups as the new base level. */
  lemma TrimmedSecondLevel(b: nat)
    requires 1 <= b
    requires TrimPrevious(Reduced(b, 2), 2, 1) == b
    ensures Trimmed(Reduced(b, 2), 2, 1) == b
  {
    assert Reduced(b, 2)[1] == b + 1;
  }

  /** The level the smaller tree no longer has held a single group, and the
      trimming empties it. */
  lemma TrimmedExtraLevel(b: nat, numberOfWinners: int, level: nat)
    requires 1 <= b && (numberOfWinners == 1 || numberOfWinners == 2)
    requires !(numberOfWinners == 2 && level == 1)
    requires 1 <= level < CanonicalLength(b + 1, numberOfWinners)
    requires level - 1 < CanonicalLength(b, numberOfWinners) <= level
    requires TrimPrevious(Reduced(b, numberOfWinners), numberOfWinners, level)
             == CanonicalAt(b, numberOfWinners, level - 1)
    ensures Trimmed(Reduced(b, numberOfWinners), numberOfWinners, level) == 0
  {
    var n := ChainLength(b);
    ChainLengthStep(b);
    ChainEnd(b);
    assert CanonicalAt(b, numberOfWinners, level - 1) == 1;
    assert Reduced(b, numberOfWinners)[level] == ChainAt(b + 1, n) == 1;
  }

  /** TrimmedStep at a level the smaller tree still has (other than level 1
      with two winners): the level was a halving of a previous level of at
      least two groups, and it is trimmed back to the halving of the trimmed
      previous level. */
  lemma TrimmedInnerStep(b: nat, numberOfWinners: int, level: nat)
    requires 1 <= b <= (RemovalSentinel + 1) / 2 && (numberOfWinners == 1 || numberOfWinners == 2)
    requires 1 <= level < CanonicalLength(b, numberOfWinners) <= CanonicalLength(b + 1, numberOfWinners)
    requires !(numberOfWinners == 2 && level == 1)
    requires TrimPrevious(Reduced(b, numberOfWinners), numberOfWinners, level)
             == CanonicalAt(b, numberOfWinners, level - 1)
    ensures Trimmed(Reduced(b, numberOfWinners), numberOfWinners, level)
            == CanonicalAt(b, numberOfWinners, level)
  {
    var counts := Reduced(b, numberOfWinners);
    var p := CanonicalAt(b, numberOfWinners, level - 1);
    var x := CanonicalAt(b, numberOfWinners, level);
    assert x <= counts[level] <= x + 1 by {
      ChainStep(b, if numberOfWinners == 2 then level - 1 else level);
    }
    assert p >= 2 by {
      ChainEnd(b);
    }
    assert x == Halved(p);
  }

  /** Trimming, level by level, the canonical tree over `b + 1` base groups whose
      base level has lost one group yields the canonical tree over `b` base
      groups, and leaves the level it no longer needs empty. */
  lemma {:induction false} TrimmedFollowsCanonical(b: nat, numberOfWinners: int, level: nat)
    requires 1 <= b <= (RemovalSentinel + 1) / 2 && (numberOfWinners == 1 || numberOfWinners == 2)
    requires level < CanonicalLength(b + 1, numberOfWinners)
    ensures Trimmed(Reduced(b, numberOfWinners), numberOfWinners, level)
            == if level < CanonicalLength(b, numberOfWinners) then CanonicalAt(b, numberOfWinners, level) else 0
  {
    if level > 0 {
      TrimmedFollowsCanonical(b, numberOfWinners, level - 1);
      ChainLengthStep(b);
      TrimmedStep(b, numberOfWinners, level);
    }
  }

  /** Removing a base group from the canonical tree over `b + 1` base groups and
      trimming the inner levels yields the canonical tree over `b` base groups,
      followed by an empty level when the larger tree had one level more. */
  lemma RemovingKeepsCanonical(b: nat, numberOfWinners: int)
    requires 1 <= b <= (RemovalSentinel + 1) / 2 && (numberOfWinners == 1 || numberOfWinners == 2)
    ensures TrimmedCounts(Reduced(b, numberOfWinners), numberOfWinners)
            == CanonicalCounts(b, numberOfWinners)
               + (if CanonicalLength(b + 1, numberOfWinners) > CanonicalLength(b, numberOfWinners) then [0] else [])
  {
    var counts := Reduced(b, numberOfWinners);
    var trimmed := TrimmedCounts(counts, numberOfWinners);
    ChainLengthStep(b);
    forall level | 0 <= level < |counts|
      ensures trimmed[level] == if level < CanonicalLength(b, numberOfWinners) then CanonicalAt(b, numberOfWinners, level) else 0
    {
      TrimmedFollowsCanonical(b, numberOfWinners, level);
    }
  }

  /** Past half the sentinel, the walk trims level 0 itself with one winner per
      group: it is compared with the sentinel and holds more than half of it. */
  lemma BaseLevelTrimmedPastBound(counts: seq<nat>)
    requires |counts| > 0 && counts[0] > (RemovalSentinel + 1) / 2
    ensures TrimmedCounts(counts, 1)[0] == counts[0] - 1
  {
    assert TrimPrevious(counts, 1, 0) == RemovalSentinel;
  }

  /** Removing the only base group: with one winner nothing is left, but with
      two the level-1 group stays. Level 0 then holds no groups and is not
      visited, so level 1 is compared with the sentinel and fails both
      trimming tests. */
  lemma RemovingOnlyBaseGroup(numberOfWinners: int)
    requires numberOfWinners == 1 || numberOfWinners == 2
    ensures TrimmedCounts(Reduced(0, numberOfWinners), numberOfWinners)
            == if numberOfWinners == 1 then [0] else [0, 1]
  {
    var counts := Reduced(0, numberOfWinners);
    assert counts == if numberOfWinners == 1 then [0] else [0, 1];
    if numberOfWinners == 2 {
      assert TrimPrevious(counts, numberOfWinners, 1) == RemovalSentinel;
    }
  }

  /** With two winners, adding a base group back to the tree left by
      RemovingOnlyBaseGroup keeps the stale level-1 group: the level grows to
      two groups and a third level opens, where the canonical tree over one
      base group has two levels of one group. */
  lemma StaleLevelAfterReAdd()
    ensures AdjustedCounts([1, 1], 2) == [1, 2, 1]
    ensures CanonicalCounts(1, 2) == [1, 1]
  {
    assert GrownLevels([1, 1], 2) == [1, 2];
  }

  /** Adding a base group and removing one again restores the shape of a
      canonical tree, up to an empty final level. */
  lemma AddThenRemoveRestoresShape(b: nat, numberOfWinners: int)
    requires 1 <= b <= (RemovalSentinel + 1) / 2 && (numberOfWinners == 1 || numberOfWinners == 2)
    ensures var added := AdjustedCounts(Enlarged(b, numberOfWinners), numberOfWinners);
            TrimmedCounts(added[0 := b], numberOfWinners)[..CanonicalLength(b, numberOfWinners)]
            == CanonicalCounts(b, numberOfWinners)
  {
    AddingKeepsCanonical(b, numberOfWinners);
    RemovingKeepsCanonical(b, numberOfWinners);
  }

  /** Five base groups with one winner each: levels of 3, 2 and 1 groups. */
  lemma FiveBaseGroupsExample()
    ensures CanonicalCounts(5, 1) == [5, 3, 2, 1]
    ensures AdjustedCounts([5, 2, 1], 1) == [5, 3, 2, 1]
  {
    assert ChainLength(5) == 4;
    assert GrownLevels([5, 2, 1], 1) == [5, 3, 2];
  }
}
