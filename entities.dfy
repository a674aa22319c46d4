/** Values shared by the tournament engine and the front end: teams, rankings,
    groups of the tournament tree, links between groups and the errors the
    engine raises. */
module Entities {

  datatype Option<+T> = None | Some(value: T)

  datatype Result<+T, +E> = Success(value: T) | Failure(error: E)

  /** The outcome of an operation that returns nothing or raises an error. */
  datatype Outcome<+E> = Pass | Fail(error: E)

  /** A participant is identified by its id. */
  datatype Participant = Participant(id: int)

  datatype Team = Team(name: string, members: seq<Participant>)

  /** One line of a group's ranking: a team and its position after tie-breaking
      (teams in a draw share a sorting index). */
  datatype ScoreOfTeam = ScoreOfTeam(team: Team, sortingIndex: int)

  datatype Fight = Fight(team1: Team, team2: Team, level: nat)

  /** A group of the tournament tree. Its index is its position in the list of
      its level; level 0 holds the base groups. */
  datatype Group = Group(level: nat, teams: seq<Team>, fights: seq<Fight>)

  /** The (level, index) coordinates of a group. */
  datatype GroupRef = GroupRef(level: nat, index: nat)

  /** A source group's ranking position `winner` feeds the destination group. */
  datatype GroupLink = GroupLink(source: GroupRef, destination: GroupRef, winner: int)

  /** The tournament types this core tells apart; every other type of the
      enumeration (league, tree, ...) behaves alike here. */
  datatype TournamentType = Championship | KingOfTheMountain | League | OtherType

  datatype Tournament = Tournament(name: string, tournamentType: TournamentType)

  datatype TournamentError =
    | InvalidGroup
    | LevelNotFinished(drawIndex: int)
    | RankingIndexOutOfBounds(winner: int)
    | GroupNotFound(groupId: int)
    | PositionMissing(position: int)

  /** A fresh, empty group created by the tree resizing at `level`. */
  function NewGroup(level: nat): (g: Group)
    ensures g.level == level && g.teams == [] && g.fights == []
  {
    Group(level, [], [])
  }

  /** The scores of a ranking whose sorting index is `index`, in ranking order. */
  function ScoresAt(scores: seq<ScoreOfTeam>, index: int): (r: seq<ScoreOfTeam>)
    ensures |r| <= |scores|
    ensures forall s :: s in r <==> s in scores && s.sortingIndex == index
  {
    if scores == [] then []
    else if scores[0].sortingIndex == index then [scores[0]] + ScoresAt(scores[1..], index)
    else ScoresAt(scores[1..], index)
  }

  /** Filtering a ranking made of two parts filters each part, keeping the
      entries of the first part ahead of those of the second. */
  lemma {:induction false} ScoresAtAppend(a: seq<ScoreOfTeam>, b: seq<ScoreOfTeam>, index: int)
    ensures ScoresAt(a + b, index) == ScoresAt(a, index) + ScoresAt(b, index)
    decreases |a|
  {
    if a != [] {
      assert (a + b)[0] == a[0] && (a + b)[1..] == a[1..] + b;
      ScoresAtAppend(a[1..], b, index);
      if a[0].sortingIndex == index {
        assert ScoresAt(a + b, index) == [a[0]] + ScoresAt(a[1..] + b, index);
        assert ScoresAt(a, index) == [a[0]] + ScoresAt(a[1..], index);
      } else {
        assert ScoresAt(a + b, index) == ScoresAt(a[1..] + b, index);
      }
    } else {
      assert a + b == b;
    }
  }

  /** A single entry is kept exactly when its sorting index is the one asked
      for. Together with ScoresAtAppend this fixes ScoresAt as the filter that
      keeps every matching entry, once per occurrence, in ranking order. */
  lemma ScoresAtSingle(s: ScoreOfTeam, index: int)
    ensures ScoresAt([s], index) == if s.sortingIndex == index then [s] else []
  {
    assert [s][1..] == [];
  }

  /** The teams of a list of scores, in order. */
  function TeamsOf(scores: seq<ScoreOfTeam>): (r: seq<Team>)
    ensures |r| == |scores|
    ensures forall k :: 0 <= k < |scores| ==> r[k] == scores[k].team
  {
    if scores == [] then [] else [scores[0].team] + TeamsOf(scores[1..])
  }

  /** How many teams of a ranking share the sorting index `index`. */
  function CountAt(scores: seq<ScoreOfTeam>, index: int): nat
  {
    |ScoresAt(scores, index)|
  }

  /** Two or more teams share the sorting index `index`. */
  predicate IsDrawAt(scores: seq<ScoreOfTeam>, index: int)
  {
    CountAt(scores, index) > 1
  }
}
