/** The ranking queries of the tournament controller: whether a ranking is
    computed per level, the competitors of a list of teams, the ranking of a
    group looked up by id, the teams grouped by ranking position, the first
    position shared by several teams and the team at a ranking position. The
    ranking itself comes from a provider that is not part of this model; it is
    a parameter. */
module RankingController {
  import opened Entities
  import opened LevelPopulation

  /** An untie duel fought between two competitors to settle a draw. */
  datatype Duel = Duel(competitor1: Participant, competitor2: Participant)

  /** A group as the controller receives it, with its untie duels. Groups are
      looked up by their id as the key of the repository map. */
  datatype GroupDto = GroupDto(tournament: Tournament, teams: seq<Team>, fights: seq<Fight>, unties: seq<Duel>)

  /** The ranking provider: from the tournament (its score type), the teams,
      the fights, the untie duels and whether the ranking is per level, a
      ranking of the teams. */
  type ScoreRanker = (Tournament, seq<Team>, seq<Fight>, seq<Duel>, bool) -> seq<ScoreOfTeam>

  // ---------------------------------------------------------------------------
  // checkLevel
  // ---------------------------------------------------------------------------

  /** checkLevel: rankings are computed per level, except in a king of the
      mountain tournament, which ranks globally. A missing tournament counts as
      per level. */
  function CheckLevel(tournament: Option<Tournament>): (r: bool)
    ensures !r <==> tournament.Some? && tournament.value.tournamentType == KingOfTheMountain
  {
    tournament.None? || tournament.value.tournamentType != KingOfTheMountain
  }

  // ---------------------------------------------------------------------------
  // getParticipants
  // ---------------------------------------------------------------------------

  /** The participants of a list of members, as a set. */
  function MemberSet(members: seq<Participant>): (r: set<Participant>)
    ensures forall p :: p in r <==> p in members
  {
    if members == [] then {} else {members[0]} + MemberSet(members[1..])
  }

  /** The members of the teams, gathered team by team. */
  function MembersOf(teams: seq<Team>): set<Participant>
  {
    if teams == [] then {}
    else MembersOf(teams[..|teams| - 1]) + MemberSet(teams[|teams| - 1].members)
  }

  /** A participant is gathered exactly when it is a member of one of the teams. */
  lemma {:induction false} MembersOfIsUnion(teams: seq<Team>)
    ensures forall p :: p in MembersOf(teams) <==> exists t :: t in teams && p in t.members
  {
    if teams != [] {
      var prefix := teams[..|teams| - 1];
      var last := teams[|teams| - 1];
      MembersOfIsUnion(prefix);
      assert teams == prefix + [last];
      forall p
        ensures p in MembersOf(teams) <==> exists t :: t in teams && p in t.members
      {
        if p in MembersOf(teams) {
          if p in MembersOf(prefix) {
            var t :| t in prefix && p in t.members;
            assert t in teams;
          } else {
            assert last in teams;
          }
        }
      }
    }
  }

  /** getParticipants: the set of all members of the given teams. */
  method GetParticipants(teams: seq<Team>) returns (allCompetitors: set<Participant>)
    ensures allCompetitors == MembersOf(teams)
    ensures forall p :: p in allCompetitors <==> exists t :: t in teams && p in t.members
  {
    allCompetitors := {};
    for i := 0 to |teams|
      invariant allCompetitors == MembersOf(teams[..i])
    {
      assert teams[..i + 1][..i] == teams[..i];
      allCompetitors := allCompetitors + MemberSet(teams[i].members);
    }
    assert teams[..|teams|] == teams;
    MembersOfIsUnion(teams);
  }

  // ---------------------------------------------------------------------------
  // Rankings of a group
  // ---------------------------------------------------------------------------

  /** getTeamsScoreRanking(group): no group has an empty ranking; otherwise the
      provider ranks the group's teams by its fights and untie duels, per level unless the
      tournament is a king of the mountain. */
  function GetTeamsScoreRanking(group: Option<GroupDto>, rank: ScoreRanker): (r: seq<ScoreOfTeam>)
    ensures group.None? ==> r == []
    ensures group.Some? && group.value.tournament.tournamentType == KingOfTheMountain ==>
              r == rank(group.value.tournament, group.value.teams, group.value.fights, group.value.unties, false)
    ensures group.Some? && group.value.tournament.tournamentType != KingOfTheMountain ==>
              r == rank(group.value.tournament, group.value.teams, group.value.fights, group.value.unties, true)
  {
    match group
    case None => []
    case Some(g) => rank(g.tournament, g.teams, g.fights, g.unties, CheckLevel(Some(g.tournament)))
  }

  /** getTeamsScoreRankingFromGroup: the ranking of the group with that id;
      an id without a group is an error naming the id. */
  function GetTeamsScoreRankingFromGroup(groupId: int, groups: map<int, GroupDto>, rank: ScoreRanker)
    : (r: Result<seq<ScoreOfTeam>, TournamentError>)
    ensures r.Failure? <==> groupId !in groups
    ensures r.Failure? ==> r.error == GroupNotFound(groupId)
    ensures r.Success? ==> r.value == GetTeamsScoreRanking(Some(groups[groupId]), rank)
  {
    if groupId !in groups then Failure(GroupNotFound(groupId))
    else Success(GetTeamsScoreRanking(Some(groups[groupId]), rank))
  }

  // ---------------------------------------------------------------------------
  // getTeamsByPosition
  // ---------------------------------------------------------------------------

  /** Each team of a list converted, in order. */
  function ConvertAll<D>(teams: seq<Team>, convert: Team -> D): (r: seq<D>)
    ensures |r| == |teams|
    ensures forall k :: 0 <= k < |teams| ==> r[k] == convert(teams[k])
  {
    if teams == [] then [] else [convert(teams[0])] + ConvertAll(teams[1..], convert)
  }

  /** getTeamsByPosition: the provider's teams by position, with every
      position kept and each position's list converted team by team. */
  method GetTeamsByPosition<D>(teamsByPosition: map<int, seq<Team>>, convert: Team -> D)
    returns (r: map<int, seq<D>>)
    ensures r.Keys == teamsByPosition.Keys
    ensures forall key :: key in r ==> r[key] == ConvertAll(teamsByPosition[key], convert)
  {
    r := map[];
    var keys := teamsByPosition.Keys;
    while keys != {}
      invariant keys <= teamsByPosition.Keys
      invariant r.Keys == teamsByPosition.Keys - keys
      invariant forall key :: key in r ==> r[key] == ConvertAll(teamsByPosition[key], convert)
      decreases keys
    {
      assert exists k :: k in keys by {
        if forall k :: k !in keys {
          assert false;
        }
      }
      var key :| key in keys;
      r := r[key := ConvertAll(teamsByPosition[key], convert)];
      keys := keys - {key};
    }
  }

  // ---------------------------------------------------------------------------
  // getFirstTeamsWithDrawScore
  // ---------------------------------------------------------------------------

  /** Every position from `from` up to `to` (excluded) is present and held by at
      most one team. */
  ghost predicate SingleUpTo<D>(teamsByPosition: map<int, seq<D>>, from: int, to: int)
  {
    forall j :: from <= j < to ==> j in teamsByPosition && |teamsByPosition[j]| <= 1
  }

  /** The teams of the first position from `from` below `maxWinners` held by
      more than one team; none when there is no such position. A position
      missing from the map stops the search with an error, where the source
      dereferences null. */
  function FirstDrawPosition<D>(teamsByPosition: map<int, seq<D>>, from: int, maxWinners: int)
    : (r: Result<seq<D>, TournamentError>)
    ensures r.Success? && |r.value| > 0 ==>
              exists i :: from <= i < maxWinners && i in teamsByPosition && r.value == teamsByPosition[i]
                          && |r.value| > 1 && SingleUpTo(teamsByPosition, from, i)
    ensures r.Success? && |r.value| == 0 <==> SingleUpTo(teamsByPosition, from, maxWinners)
    ensures r.Failure? ==>
              exists i :: from <= i < maxWinners && i !in teamsByPosition && r.error == PositionMissing(i)
                          && SingleUpTo(teamsByPosition, from, i)
    decreases maxWinners - from
  {
    if from >= maxWinners then Success([])
    else if from !in teamsByPosition then Failure(PositionMissing(from))
    else if |teamsByPosition[from]| > 1 then Success(teamsByPosition[from])
    else FirstDrawPosition(teamsByPosition, from + 1, maxWinners)
  }

  /** getFirstTeamsWithDrawScore: positions 0 .. maxWinners - 1 are visited in
      order and the first one holding more than one team is returned. */
  method GetFirstTeamsWithDrawScore<D>(teamsByPosition: map<int, seq<D>>, maxWinners: int)
    returns (r: Result<seq<D>, TournamentError>)
    ensures r == FirstDrawPosition(teamsByPosition, 0, maxWinners)
  {
    var i := 0;
    while i < maxWinners
      invariant FirstDrawPosition(teamsByPosition, i, maxWinners) == FirstDrawPosition(teamsByPosition, 0, maxWinners)
      decreases maxWinners - i
    {
      if i !in teamsByPosition {
        return Failure(PositionMissing(i));
      }
      var teamsInDraw := teamsByPosition[i];
      if |teamsInDraw| > 1 {
        return Success(teamsInDraw);
      }
      i := i + 1;
    }
    return Success([]);
  }

  /** The teams of a ranking by sorting index, for positions 0 .. positions - 1. */
  function PositionsOf(scores: seq<ScoreOfTeam>, positions: int): map<int, seq<Team>>
  {
    map i | 0 <= i < positions :: TeamsOf(ScoresAt(scores, i))
  }

  /** Positions from .. winner of the map hold the teams of the ranking at
      that sorting index. */
  ghost predicate PositionsFollow(positions: map<int, seq<Team>>, scores: seq<ScoreOfTeam>, from: int, winner: int)
  {
    forall i :: from <= i <= winner ==> i in positions && positions[i] == TeamsOf(ScoresAt(scores, i))
  }

  /** On positions built from a ranking, the controller's search from `from`
      finds the first sorting index of the ranking shared by several teams. */
  lemma {:induction false} PositionsFirstDraw(positions: map<int, seq<Team>>, scores: seq<ScoreOfTeam>, from: int, winner: int)
    requires PositionsFollow(positions, scores, from, winner)
    ensures FirstDraw(scores, from, winner).None? ==>
              FirstDrawPosition(positions, from, winner + 1) == Success([])
    ensures FirstDraw(scores, from, winner).Some? ==>
              FirstDrawPosition(positions, from, winner + 1)
              == Success(TeamsOf(ScoresAt(scores, FirstDraw(scores, from, winner).value)))
    decreases winner + 1 - from
  {
    if from <= winner {
      assert |positions[from]| == CountAt(scores, from);
      if IsDrawAt(scores, from) {
        assert FirstDraw(scores, from, winner) == Some(from);
        assert FirstDrawPosition(positions, from, winner + 1) == Success(positions[from]);
      } else {
        PositionsFirstDraw(positions, scores, from + 1, winner);
        assert FirstDraw(scores, from, winner) == FirstDraw(scores, from + 1, winner);
        assert FirstDrawPosition(positions, from, winner + 1) == FirstDrawPosition(positions, from + 1, winner + 1);
      }
    }
  }

  /** With maxWinners = winner + 1, the controller's strict cutoff visits the
      same positions 0 .. winner as the draw guard of the tree tournament: it
      finds no draw exactly when the guard lets the ranking pass, and otherwise
      returns the teams of the position the guard reports. */
  lemma StrictCutoffMatchesGuard(scores: seq<ScoreOfTeam>, winner: int)
    requires 0 <= winner
    ensures FirstDrawPosition(PositionsOf(scores, winner + 1), 0, winner + 1) == Success([])
            <==> DrawCheck(scores, winner) == Pass
    ensures DrawCheck(scores, winner).Fail? ==>
              FirstDrawPosition(PositionsOf(scores, winner + 1), 0, winner + 1)
              == Success(TeamsOf(ScoresAt(scores, DrawCheck(scores, winner).error.drawIndex)))
  {
    PositionsFirstDraw(PositionsOf(scores, winner + 1), scores, 0, winner);
  }

  // ---------------------------------------------------------------------------
  // getTeam
  // ---------------------------------------------------------------------------

  /** getTeam: the team at ranking position `order`, or none when the position
      is outside the ranking. */
  function GetTeam<D>(teamsOrder: seq<D>, order: int): (r: Option<D>)
    ensures r.Some? <==> 0 <= order < |teamsOrder|
    ensures r.Some? ==> r.value == teamsOrder[order]
  {
    if 0 <= order < |teamsOrder| then Some(teamsOrder[order]) else None
  }
}
