/** The team ranking dialog of the front end: it loads the ranking of a group
    (or of the whole tournament), warns when the positions that qualify are
    shared by several teams, and lists the teams sharing a position so that
    they can be untied. */
module TeamRanking {
  import opened Entities
  import opened LevelPopulation
  import TreeTournamentHandler
  import JavaIntegers

  /** The message key of the warning shown for a draw. */
  const DrawScoreMessage: string := "drawScore"

  /** The warning decision once a group's ranking arrives: with the fights
      finished, a draw at the first position, or a draw at the second position
      when the tournament's number-of-winners property reads exactly "2". */
  predicate DrawWarning(scores: seq<ScoreOfTeam>, fightsFinished: bool, numberOfWinners: Option<string>)
  {
    fightsFinished
    && (IsDrawAt(scores, 0) || (numberOfWinners == Some("2") && IsDrawAt(scores, 1)))
  }

  class TeamRankingComponent {
    /** The ranking, once loaded. */
    var teamScores: Option<seq<ScoreOfTeam>>
    var fightsFinished: bool
    var existsDraws: bool
    /** The warning messages shown, oldest first. */
    var warnings: seq<string>

    constructor(finished: bool)
      ensures teamScores.None? && fightsFinished == finished
      ensures !existsDraws && warnings == []
    {
      teamScores := None;
      fightsFinished := finished;
      existsDraws := false;
      warnings := [];
    }

    /** isDrawWinner: with the ranking loaded and the fights finished, two or
        more teams share the sorting index. */
    function IsDrawWinner(index: int): (r: bool)
      reads this
      ensures r <==> teamScores.Some? && fightsFinished && IsDrawAt(teamScores.value, index)
    {
      teamScores.Some? && fightsFinished && |ScoresAt(teamScores.value, index)| > 1
    }

    /** getDrawWinners: the teams whose sorting index is `index`, in ranking
        order, collected one by one; none before the ranking is loaded or the
        fights are finished. There are several exactly when isDrawWinner holds. */
    method GetDrawWinners(index: int) returns (teams: seq<Team>)
      ensures teamScores.Some? && fightsFinished ==> teams == TeamsOf(ScoresAt(teamScores.value, index))
      ensures !(teamScores.Some? && fightsFinished) ==> teams == []
      ensures forall t :: t in teams ==>
                teamScores.Some? && exists s :: s in teamScores.value && s.team == t && s.sortingIndex == index
      ensures |teams| > 1 <==> IsDrawWinner(index)
    {
      teams := [];
      if teamScores.Some? && fightsFinished {
        var scores := ScoresAt(teamScores.value, index);
        for i := 0 to |scores|
          invariant |teams| == i
          invariant forall k :: 0 <= k < i ==> teams[k] == scores[k].team
        {
          teams := teams + [scores[i].team];
        }
        assert teams == TeamsOf(scores);
        forall t | t in teams
          ensures exists s :: s in teamScores.value && s.team == t && s.sortingIndex == index
        {
          var k :| 0 <= k < |teams| && teams[k] == t;
          assert scores[k] in scores;
        }
      }
    }

    /** ngOnInit, once a championship group's ranking and number-of-winners
        property have arrived: the ranking is stored, and a draw among the
        qualifying positions shows a warning and marks the dialog as having
        draws. The mark is never cleared. */
    method OnGroupRankingLoaded(scores: seq<ScoreOfTeam>, numberOfWinners: Option<string>)
      modifies this
      ensures teamScores == Some(scores) && fightsFinished == old(fightsFinished)
      ensures existsDraws == (old(existsDraws) || DrawWarning(scores, fightsFinished, numberOfWinners))
      ensures warnings == old(warnings) + (if DrawWarning(scores, fightsFinished, numberOfWinners) then [DrawScoreMessage] else [])
    {
      teamScores := Some(scores);
      if IsDrawWinner(0) || (numberOfWinners.Some? && numberOfWinners.value == "2" && IsDrawWinner(1)) {
        warnings := warnings + [DrawScoreMessage];
        existsDraws := true;
      }
    }

    /** ngOnInit for any other tournament: the tournament's ranking is stored
        and no draw is looked for. */
    method OnTournamentRankingLoaded(scores: seq<ScoreOfTeam>)
      modifies this
      ensures teamScores == Some(scores) && fightsFinished == old(fightsFinished)
      ensures existsDraws == old(existsDraws) && warnings == old(warnings)
    {
      teamScores := Some(scores);
    }
  }

  /** With the property missing or reading "1" or "2", the warning fires
      exactly when the backend's draw guard refuses to promote the last
      qualifying position of the group (positions 0 .. winners - 1). */
  lemma DrawWarningAgreesWithGuard(scores: seq<ScoreOfTeam>, numberOfWinners: Option<string>)
    requires numberOfWinners == None || numberOfWinners == Some("1") || numberOfWinners == Some("2")
    ensures DrawWarning(scores, true, numberOfWinners)
            <==> DrawCheck(scores, TreeTournamentHandler.GetNumberOfWinners(numberOfWinners) - 1).Fail?
  {
    if numberOfWinners == Some("1") {
      assert JavaIntegers.DigitsValue("1") == 1;
    } else if numberOfWinners == Some("2") {
      assert JavaIntegers.DigitsValue("2") == 2;
    }
  }

  /** The two checks diverge for other values: a property "02" makes the
      back end guard positions 0 .. 1, while the front end, which compares
      the text with "2", only looks at position 0. */
  lemma DrawWarningDiverges()
    ensures var a := ScoreOfTeam(Team("A", []), 0);
            var b := ScoreOfTeam(Team("B", []), 1);
            var c := ScoreOfTeam(Team("C", []), 1);
            var scores := [a, b, c];
            !DrawWarning(scores, true, Some("02"))
            && TreeTournamentHandler.GetNumberOfWinners(Some("02")) == 2
            && DrawCheck(scores, 1) == Fail(LevelNotFinished(1))
  {
    var a := ScoreOfTeam(Team("A", []), 0);
    var b := ScoreOfTeam(Team("B", []), 1);
    var c := ScoreOfTeam(Team("C", []), 1);
    var scores := [a, b, c];
    assert ScoresAt(scores, 0) == [a];
    assert ScoresAt(scores, 1) == [b, c];
    assert "02"[..1] == "0";
    assert JavaIntegers.DigitsValue("02") == 2;
  }
}
