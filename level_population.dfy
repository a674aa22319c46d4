/** The value side of moving the winners of a finished level up the tournament
    tree: the draw guard on a group's ranking, the choice of the next level to
    fill, the promotion of ranked teams along group links, and the fights a
    level receives. The GroupStore methods of TreeTournamentHandler are proved
    to follow these functions. */
module LevelPopulation {
  import opened Entities
  import opened GroupLevels

  // ---------------------------------------------------------------------------
  // The draw guard (checkDrawScore)
  // ---------------------------------------------------------------------------

  /** The smallest sorting index in from .. winner (both included) that two or
      more teams of the ranking share. */
  function FirstDraw(scores: seq<ScoreOfTeam>, from: int, winner: int): (r: Option<int>)
    ensures r.Some? ==> from <= r.value <= winner && IsDrawAt(scores, r.value)
    ensures r.Some? ==> forall i :: from <= i < r.value ==> !IsDrawAt(scores, i)
    ensures r.None? ==> forall i :: from <= i <= winner ==> !IsDrawAt(scores, i)
    decreases winner + 1 - from
  {
    if from > winner then None
    else if IsDrawAt(scores, from) then Some(from)
    else FirstDraw(scores, from + 1, winner)
  }

  /** checkDrawScore: the ranking of a group may feed its position `winner`
      to the next level only when no position 0 .. winner (both included) is
      shared by two or more teams; otherwise the level is not finished, and the
      error names the first shared position. */
  function DrawCheck(scores: seq<ScoreOfTeam>, winner: int): (r: Outcome<TournamentError>)
    ensures r.Fail? <==> exists i :: 0 <= i <= winner && IsDrawAt(scores, i)
    ensures r.Fail? ==> r.error.LevelNotFinished? && 0 <= r.error.drawIndex <= winner
                        && IsDrawAt(scores, r.error.drawIndex)
                        && forall i :: 0 <= i < r.error.drawIndex ==> !IsDrawAt(scores, i)
  {
    match FirstDraw(scores, 0, winner)
    case None => Pass
    case Some(i) => Fail(LevelNotFinished(i))
  }

  /** checkDrawScore, position by position from 0 up to `winner`. */
  method CheckDrawScore(scores: seq<ScoreOfTeam>, winner: int) returns (r: Outcome<TournamentError>)
    ensures r == DrawCheck(scores, winner)
  {
    var i := 0;
    while i <= winner
      invariant 0 <= i && (winner >= 0 ==> i <= winner + 1)
      invariant FirstDraw(scores, i, winner) == FirstDraw(scores, 0, winner)
    {
      var sameLevelScore := ScoresAt(scores, i);
      if |sameLevelScore| > 1 {
        return Fail(LevelNotFinished(i));
      }
      i := i + 1;
    }
    return Pass;
  }

  // ---------------------------------------------------------------------------
  // The next level to fill (getNextEmptyLevel)
  // ---------------------------------------------------------------------------

  /** The position of the first group, from `from` on, that has no teams yet. */
  function FirstEmptyFrom(groups: seq<Group>, from: nat): (r: Option<nat>)
    requires from <= |groups|
    ensures r.Some? ==> from <= r.value < |groups| && groups[r.value].teams == []
    ensures r.Some? ==> forall k :: from <= k < r.value ==> groups[k].teams != []
    ensures r.None? ==> forall k :: from <= k < |groups| ==> groups[k].teams != []
    decreases |groups| - from
  {
    if from == |groups| then None
    else if groups[from].teams == [] then Some(from)
    else FirstEmptyFrom(groups, from + 1)
  }

  /** getNextEmptyLevel: the level of the first group of the list, in list
      order, that has no teams; None when every group has teams. */
  function NextEmptyLevel(groups: seq<Group>): (r: Option<nat>)
    ensures r.Some? <==> exists k :: 0 <= k < |groups| && groups[k].teams == []
  {
    match FirstEmptyFrom(groups, 0)
    case None => None
    case Some(k) => Some(groups[k].level)
  }

  /** The first group without teams is where the search stops. */
  lemma NextEmptyLevelAt(groups: seq<Group>, k: nat)
    requires k < |groups| && groups[k].teams == []
    requires forall j :: 0 <= j < k ==> groups[j].teams != []
    ensures NextEmptyLevel(groups) == Some(groups[k].level)
  {
    var found := FirstEmptyFrom(groups, 0);
    assert found.Some?;
    assert found.value == k;
  }

  /** getNextEmptyLevel, group by group in list order. */
  method GetNextEmptyLevel(groups: seq<Group>) returns (r: Option<nat>)
    ensures r == NextEmptyLevel(groups)
  {
    for k := 0 to |groups|
      invariant FirstEmptyFrom(groups, k) == FirstEmptyFrom(groups, 0)
    {
      if groups[k].teams == [] {
        return Some(groups[k].level);
      }
    }
    return None;
  }

  /** The groups of a tournament as the group store lists them: by level, and
      within a level by index. */
  function AllGroupsFrom(m: Levels, from: nat): (r: seq<Group>)
    requires from <= |m|
    ensures forall g :: g in r <==> exists l :: from <= l < |m| && g in m[l]
    decreases |m| - from
  {
    if from == |m| then [] else m[from] + AllGroupsFrom(m, from + 1)
  }

  function AllGroups(m: Levels): seq<Group>
  {
    AllGroupsFrom(m, 0)
  }

  /** Every group of the levels `from` and above has teams. */
  ghost predicate FilledFrom(m: Levels, from: nat, to: nat)
    requires to <= |m|
  {
    forall l, g :: from <= l < to && g in m[l] ==> g.teams != []
  }

  /** With every group stored under its own level, the next level to fill is
      the lowest level that holds a group without teams: that level has one,
      and every group of the levels below it has teams. When there is none,
      every group has teams. */
  lemma NextEmptyLevelIsLowest(m: Levels)
    requires LevelsTagged(m)
    ensures NextEmptyLevel(AllGroups(m)).Some? ==>
              var l := NextEmptyLevel(AllGroups(m)).value;
              l < |m| && (exists g :: g in m[l] && g.teams == []) && FilledFrom(m, 0, l)
    ensures NextEmptyLevel(AllGroups(m)).None? ==> FilledFrom(m, 0, |m|)
  {
    NextEmptyLevelFrom(m, 0);
  }

  lemma {:induction false} NextEmptyLevelFrom(m: Levels, from: nat)
    requires LevelsTagged(m) && from <= |m|
    ensures NextEmptyLevel(AllGroupsFrom(m, from)).Some? ==>
              var l := NextEmptyLevel(AllGroupsFrom(m, from)).value;
              from <= l < |m| && (exists g :: g in m[l] && g.teams == []) && FilledFrom(m, from, l)
    ensures NextEmptyLevel(AllGroupsFrom(m, from)).None? ==> FilledFrom(m, from, |m|)
    decreases |m| - from
  {
    if from < |m| {
      if FirstEmptyFrom(m[from], 0).Some? {
        EmptyGroupAtLevel(m, from);
      } else {
        NextEmptyLevelFrom(m, from + 1);
        FilledLevel(m, from);
      }
    }
  }

  /** A level holding a group without teams is the next level to fill from
      that level on. */
  lemma EmptyGroupAtLevel(m: Levels, from: nat)
    requires LevelsTagged(m) && from < |m|
    requires FirstEmptyFrom(m[from], 0).Some?
    ensures NextEmptyLevel(AllGroupsFrom(m, from)) == Some(from)
    ensures exists g :: g in m[from] && g.teams == []
  {
    var level := m[from];
    var all := AllGroupsFrom(m, from);
    assert all == level + AllGroupsFrom(m, from + 1);
    assert OfLevel(level, from);
    var k := FirstEmptyFrom(level, 0).value;
    assert all[k] == level[k];
    assert forall j :: 0 <= j < k ==> all[j] == level[j];
    NextEmptyLevelAt(all, k);
    assert level[k] in level;
  }

  /** A level whose groups all have teams is passed over. */
  lemma FilledLevel(m: Levels, from: nat)
    requires from < |m|
    requires FirstEmptyFrom(m[from], 0).None?
    ensures NextEmptyLevel(AllGroupsFrom(m, from)) == NextEmptyLevel(AllGroupsFrom(m, from + 1))
    ensures forall g :: g in m[from] ==> g.teams != []
  {
    assert AllGroupsFrom(m, from) == m[from] + AllGroupsFrom(m, from + 1);
    SkipFilledPrefix(m[from], AllGroupsFrom(m, from + 1));
  }

  /** A prefix of groups that all have teams does not change the next level. */
  lemma SkipFilledPrefix(prefix: seq<Group>, rest: seq<Group>)
    requires forall k :: 0 <= k < |prefix| ==> prefix[k].teams != []
    ensures NextEmptyLevel(prefix + rest) == NextEmptyLevel(rest)
  {
    var all := prefix + rest;
    var found := FirstEmptyFrom(rest, 0);
    if found.Some? {
      var k := found.value;
      assert all[|prefix| + k] == rest[k];
      forall j | 0 <= j < |prefix| + k
        ensures all[j].teams != []
      {
        if j >= |prefix| {
          assert all[j] == rest[j - |prefix|];
        }
      }
      NextEmptyLevelAt(all, |prefix| + k);
    } else {
      forall j | 0 <= j < |all|
        ensures all[j].teams != []
      {
        if j >= |prefix| {
          assert all[j] == rest[j - |prefix|];
        }
      }
    }
  }

  // ---------------------------------------------------------------------------
  // Promotion of ranked teams along the links (populateLevel)
  // ---------------------------------------------------------------------------

  /** The links that feed `level`, in their order. */
  function LevelLinks(links: seq<GroupLink>, level: int): (r: seq<GroupLink>)
    ensures |r| <= |links|
    ensures forall link :: link in r <==> link in links && link.destination.level == level
  {
    if links == [] then []
    else if links[0].destination.level == level then [links[0]] + LevelLinks(links[1..], level)
    else LevelLinks(links[1..], level)
  }

  /** Filtering two runs of links filters each, keeping the links of the first
      run ahead of those of the second. */
  lemma {:induction false} LevelLinksAppend(a: seq<GroupLink>, b: seq<GroupLink>, level: int)
    ensures LevelLinks(a + b, level) == LevelLinks(a, level) + LevelLinks(b, level)
    decreases |a|
  {
    if a != [] {
      assert (a + b)[0] == a[0] && (a + b)[1..] == a[1..] + b;
      LevelLinksAppend(a[1..], b, level);
      if a[0].destination.level == level {
        assert LevelLinks(a + b, level) == [a[0]] + LevelLinks(a[1..] + b, level);
        assert LevelLinks(a, level) == [a[0]] + LevelLinks(a[1..], level);
      } else {
        assert LevelLinks(a + b, level) == LevelLinks(a[1..] + b, level);
      }
    } else {
      assert a + b == b;
    }
  }

  /** A single link is kept exactly when its destination is on the level.
      Together with LevelLinksAppend this fixes LevelLinks as the filter that
      keeps every link into the level, once per occurrence, in link order. */
  lemma LevelLinksSingle(link: GroupLink, level: int)
    ensures LevelLinks([link], level) == if link.destination.level == level then [link] else []
  {
    assert [link][1..] == [];
  }

  /** The store once `team` has been appended to the teams of the group at `ref`;
      a reference to no stored group changes nothing. */
  function WithTeam(m: Levels, ref: GroupRef, team: Team): (r: Levels)
    ensures SameShape(m, r)
    ensures Contains(m, ref) ==> GroupAt(r, ref) == GroupAt(m, ref).(teams := GroupAt(m, ref).teams + [team])
    ensures forall other :: Contains(m, other) && other != ref ==> GroupAt(r, other) == GroupAt(m, other)
  {
    if Contains(m, ref) then
      var group := m[ref.level][ref.index];
      m[ref.level := m[ref.level][ref.index := group.(teams := group.teams + [team])]]
    else m
  }

  /** The position `winner` of the ranking exists. */
  predicate Ranked(scores: seq<ScoreOfTeam>, winner: int)
  {
    0 <= winner < |scores|
  }

  /** The team a link promotes: the team at position `winner` of the source
      group's ranking, when that position exists. */
  function Promote(m: Levels, link: GroupLink, scores: seq<ScoreOfTeam>): Levels
  {
    if Ranked(scores, link.winner) then WithTeam(m, link.destination, scores[link.winner].team) else m
  }

  /** populateLevel over its links, in order: each link first passes the draw
      guard on its source group's ranking, then appends the team at position
      `winner` of that ranking to its destination group. A link whose ranking
      has no such position is skipped. The first draw stops the population
      and nothing of it is kept. */
  function PopulateLinks(m: Levels, links: seq<GroupLink>, ranking: GroupRef -> seq<ScoreOfTeam>)
    : Result<Levels, TournamentError>
    decreases |links|
  {
    if links == [] then Success(m)
    else
      var scores := ranking(links[0].source);
      match DrawCheck(scores, links[0].winner)
      case Fail(e) => Failure(e)
      case Pass => PopulateLinks(Promote(m, links[0], scores), links[1..], ranking)
  }

  /** populateLevel as line 225 of TreeTournamentHandler.java reads the
      ranking: `teamsRanking.get(winner)` runs before any null check, so a
      ranking without position `winner` raises IndexOutOfBoundsException
      instead of reaching the logged warning. */
  function PopulateLinksAsWritten(m: Levels, links: seq<GroupLink>, ranking: GroupRef -> seq<ScoreOfTeam>)
    : Result<Levels, TournamentError>
    decreases |links|
  {
    if links == [] then Success(m)
    else
      var scores := ranking(links[0].source);
      match DrawCheck(scores, links[0].winner)
      case Fail(e) => Failure(e)
      case Pass =>
        if !Ranked(scores, links[0].winner) then Failure(RankingIndexOutOfBounds(links[0].winner))
        else PopulateLinksAsWritten(Promote(m, links[0], scores), links[1..], ranking)
  }

  /** Some link's source group has a draw among the positions it feeds. */
  ghost predicate SomeDraw(links: seq<GroupLink>, ranking: GroupRef -> seq<ScoreOfTeam>)
  {
    exists k :: 0 <= k < |links| && DrawCheck(ranking(links[k].source), links[k].winner).Fail?
  }

  /** The population fails exactly when some link's source group has a draw
      among the positions 0 .. winner, and the error is a draw error. */
  lemma {:induction false} PopulateFailsIffDraw(m: Levels, links: seq<GroupLink>, ranking: GroupRef -> seq<ScoreOfTeam>)
    ensures PopulateLinks(m, links, ranking).Failure? <==> SomeDraw(links, ranking)
    ensures PopulateLinks(m, links, ranking).Failure? ==> PopulateLinks(m, links, ranking).error.LevelNotFinished?
    decreases |links|
  {
    if links != [] {
      var scores := ranking(links[0].source);
      PopulateFailsIffDraw(Promote(m, links[0], scores), links[1..], ranking);
      if SomeDraw(links[1..], ranking) {
        var k :| 0 <= k < |links[1..]| && DrawCheck(ranking(links[1..][k].source), links[1..][k].winner).Fail?;
        assert links[k + 1] == links[1..][k];
      }
      if SomeDraw(links, ranking) && DrawCheck(scores, links[0].winner).Pass? {
        var k :| 0 <= k < |links| && DrawCheck(ranking(links[k].source), links[k].winner).Fail?;
        assert k > 0 && links[1..][k - 1] == links[k];
      }
    }
  }

  /** The teams the links promote into the group at `ref`, in link order. */
  function Promoted(links: seq<GroupLink>, ranking: GroupRef -> seq<ScoreOfTeam>, ref: GroupRef): seq<Team>
    decreases |links|
  {
    if links == [] then []
    else
      var scores := ranking(links[0].source);
      (if links[0].destination == ref && Ranked(scores, links[0].winner) then [scores[links[0].winner].team] else [])
      + Promoted(links[1..], ranking, ref)
  }

  /** A successful population keeps every group where it was, with its level
      and fights, and appends to its teams exactly the teams the links into it
      promote, in link order; a group no link feeds is left as it was. */
  lemma {:induction false} PopulatedGroups(m: Levels, links: seq<GroupLink>, ranking: GroupRef -> seq<ScoreOfTeam>)
    requires PopulateLinks(m, links, ranking).Success?
    ensures SameShape(m, PopulateLinks(m, links, ranking).value)
    ensures forall ref :: Contains(m, ref) ==>
              GroupAt(PopulateLinks(m, links, ranking).value, ref)
              == GroupAt(m, ref).(teams := GroupAt(m, ref).teams + Promoted(links, ranking, ref))
    decreases |links|
  {
    if links != [] {
      var scores := ranking(links[0].source);
      var next := Promote(m, links[0], scores);
      var result := PopulateLinks(m, links, ranking).value;
      assert PopulateLinks(next, links[1..], ranking).value == result;
      PopulatedGroups(next, links[1..], ranking);
      forall ref | Contains(m, ref)
        ensures GroupAt(result, ref) == GroupAt(m, ref).(teams := GroupAt(m, ref).teams + Promoted(links, ranking, ref))
      {
        PromoteOne(m, links, ranking, ref);
      }
    }
  }

  /** One link's promotion, as Promoted counts it. */
  lemma PromoteOne(m: Levels, links: seq<GroupLink>, ranking: GroupRef -> seq<ScoreOfTeam>, ref: GroupRef)
    requires links != [] && Contains(m, ref)
    ensures Contains(Promote(m, links[0], ranking(links[0].source)), ref)
    ensures GroupAt(Promote(m, links[0], ranking(links[0].source)), ref)
            == GroupAt(m, ref).(teams := GroupAt(Promote(m, links[0], ranking(links[0].source)), ref).teams)
    ensures GroupAt(Promote(m, links[0], ranking(links[0].source)), ref).teams + Promoted(links[1..], ranking, ref)
            == GroupAt(m, ref).teams + Promoted(links, ranking, ref)
  {
    var scores := ranking(links[0].source);
    var link := links[0];
    if link.destination == ref && Ranked(scores, link.winner) {
      var team := scores[link.winner].team;
      assert Promoted(links, ranking, ref) == [team] + Promoted(links[1..], ranking, ref);
      assert GroupAt(m, ref).teams + [team] + Promoted(links[1..], ranking, ref)
             == GroupAt(m, ref).teams + ([team] + Promoted(links[1..], ranking, ref));
    } else {
      assert Promoted(links, ranking, ref) == Promoted(links[1..], ranking, ref);
      assert GroupAt(Promote(m, link, scores), ref) == GroupAt(m, ref);
    }
  }

  /** Appending teams never moves a group to another level. */
  lemma WithTeamKeepsTags(m: Levels, ref: GroupRef, team: Team)
    requires LevelsTagged(m)
    ensures LevelsTagged(WithTeam(m, ref, team))
  {
    if Contains(m, ref) {
      var r := WithTeam(m, ref, team);
      assert OfLevel(m[ref.level], ref.level);
      forall g: Group | g in r[ref.level]
        ensures g.level == ref.level
      {
        var k :| 0 <= k < |r[ref.level]| && r[ref.level][k] == g;
        assert GroupAt(r, GroupRef(ref.level, k)) == g;
        assert m[ref.level][k] in m[ref.level];
      }
    }
  }

  /** A successful population keeps every group under its own level. */
  lemma {:induction false} PopulateKeepsTags(m: Levels, links: seq<GroupLink>, ranking: GroupRef -> seq<ScoreOfTeam>)
    requires LevelsTagged(m) && PopulateLinks(m, links, ranking).Success?
    ensures LevelsTagged(PopulateLinks(m, links, ranking).value)
    decreases |links|
  {
    if links != [] {
      var scores := ranking(links[0].source);
      if Ranked(scores, links[0].winner) {
        WithTeamKeepsTags(m, links[0].destination, scores[links[0].winner].team);
      }
      PopulateKeepsTags(Promote(m, links[0], scores), links[1..], ranking);
    }
  }

  /** Every link's ranking has the position it reads. */
  ghost predicate AllRanked(links: seq<GroupLink>, ranking: GroupRef -> seq<ScoreOfTeam>)
  {
    forall k :: 0 <= k < |links| ==> Ranked(ranking(links[k].source), links[k].winner)
  }

  /** While every ranking has the position its link reads, the population as
      written and the corrected one agree. */
  lemma {:induction false} AsWrittenAgreesWhenRanked(m: Levels, links: seq<GroupLink>, ranking: GroupRef -> seq<ScoreOfTeam>)
    requires AllRanked(links, ranking)
    ensures PopulateLinksAsWritten(m, links, ranking) == PopulateLinks(m, links, ranking)
    decreases |links|
  {
    if links != [] {
      assert Ranked(ranking(links[0].source), links[0].winner);
      assert forall k :: 0 <= k < |links[1..]| ==> links[1..][k] == links[k + 1];
      AsWrittenAgreesWhenRanked(Promote(m, links[0], ranking(links[0].source)), links[1..], ranking);
    }
  }

  /** A single-team source group linked with winner 1 (the second of two
      winners): its ranking has no draw and no position 1. As written the
      population raises IndexOutOfBoundsException; the evidently intended
      behaviour skips the link with a warning and leaves the store as it was. */
  lemma ShortRankingCounterexample()
    ensures var team := Team("A", []);
            var source := GroupRef(0, 0);
            var destination := GroupRef(1, 0);
            var m: Levels := [[Group(0, [team], [])], [Group(1, [], [])]];
            var links := [GroupLink(source, destination, 1)];
            var ranking := (ref: GroupRef) => [ScoreOfTeam(team, 0)];
            PopulateLinksAsWritten(m, links, ranking) == Failure(RankingIndexOutOfBounds(1))
            && PopulateLinks(m, links, ranking) == Success(m)
  {
    var team := Team("A", []);
    var scores := [ScoreOfTeam(team, 0)];
    assert ScoresAt(scores, 0) == scores;
    assert ScoresAt(scores, 1) == [];
    assert FirstDraw(scores, 0, 1) == None;
  }

  // ---------------------------------------------------------------------------
  // The fights of a level (createFights)
  // ---------------------------------------------------------------------------

  /** The fights generated for each group, from its teams, concatenated in
      group order. */
  function LevelFights(groups: seq<Group>, generate: seq<Team> -> seq<Fight>): seq<Fight>
    decreases |groups|
  {
    if groups == [] then [] else generate(groups[0].teams) + LevelFights(groups[1..], generate)
  }

  /** The groups once each has been given the fights generated from its teams. */
  function WithFights(groups: seq<Group>, generate: seq<Team> -> seq<Fight>): (r: seq<Group>)
    ensures |r| == |groups|
    ensures forall k :: 0 <= k < |groups| ==>
              r[k] == groups[k].(fights := generate(groups[k].teams))
  {
    seq(|groups|, k requires 0 <= k < |groups| => groups[k].(fights := generate(groups[k].teams)))
  }

  /** The fights the groups hold, concatenated in group order. */
  function StoredFights(groups: seq<Group>): seq<Fight>
    decreases |groups|
  {
    if groups == [] then [] else groups[0].fights + StoredFights(groups[1..])
  }

  /** createFights returns exactly the fights it stores in the groups of the
      level, in group order. */
  lemma {:induction false} CreatedFightsAreStored(groups: seq<Group>, generate: seq<Team> -> seq<Fight>)
    ensures StoredFights(WithFights(groups, generate)) == LevelFights(groups, generate)
    decreases |groups|
  {
    if groups != [] {
      CreatedFightsAreStored(groups[1..], generate);
      assert WithFights(groups, generate)[1..] == WithFights(groups[1..], generate);
    }
  }

  /** The fights createFights returns for `level`: those of the level's groups,
      in index order; none for a level the store does not have. */
  function FightsCreated(m: Levels, level: int, generate: seq<Team> -> seq<Fight>): seq<Fight>
  {
    if 0 <= level < |m| then LevelFights(m[level], generate) else []
  }

  /** The store once createFights has given the groups of `level` their fights. */
  function WithLevelFights(m: Levels, level: int, generate: seq<Team> -> seq<Fight>): (r: Levels)
    ensures SameShape(m, r)
    ensures forall l :: 0 <= l < |m| && l != level ==> r[l] == m[l]
  {
    if 0 <= level < |m| then m[level := WithFights(m[level], generate)] else m
  }

  /** createFights stores in the groups of the level exactly the fights it
      returns, and changes no other level. */
  lemma LevelFightsAreStored(m: Levels, level: int, generate: seq<Team> -> seq<Fight>)
    ensures 0 <= level < |m| ==> StoredFights(WithLevelFights(m, level, generate)[level]) == FightsCreated(m, level, generate)
    ensures !(0 <= level < |m|) ==> WithLevelFights(m, level, generate) == m && FightsCreated(m, level, generate) == []
  {
    if 0 <= level < |m| {
      CreatedFightsAreStored(m[level], generate);
    }
  }

  /** Giving the groups their fights changes neither their levels nor their teams. */
  lemma WithFightsKeepsTags(groups: seq<Group>, level: nat, generate: seq<Team> -> seq<Fight>)
    requires OfLevel(groups, level)
    ensures OfLevel(WithFights(groups, generate), level)
  {
    var r := WithFights(groups, generate);
    forall g: Group | g in r
      ensures g.level == level
    {
      var k :| 0 <= k < |r| && r[k] == g;
      assert groups[k] in groups;
    }
  }
}
