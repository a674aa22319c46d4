# Kendo tournament manager: tree brackets, ranking queries and result tables

This project is a Dafny model of the parts of the kendo tournament manager
that decide how a tournament tree is shaped and filled, and of the front-end
pieces that show its rankings. It covers:

- **The tree tournament handler.** Groups are stored level by level, level 0
  being the base groups.
  - Adding a base group grows the inner levels by a halving rule.
  - Removing a base group trims them by a companion rule.
  - The next level to fill is the level of the first group without teams.
  - A draw among the positions a group feeds stops the promotion.
  - The winners of the feeding groups are appended to the groups of the next
    level, and that level then receives its fights.
- **The ranking controller.** It provides these queries:
  - whether a ranking is computed per level;
  - the participants of a list of teams;
  - the ranking of a group looked up by id;
  - teams by position;
  - the first position shared by several teams;
  - the team at a ranking position.
- **The team ranking dialog.** It decides when to warn about a draw, and lists
  the teams sharing a position.
- **The generic table and the club list.** Both handle row selection, the
  search filter (trimmed and lower-cased) and showing or hiding columns. The
  visible columns are always rebuilt in table order.

Objects that the source updates in place are classes:

- **`TreeTournamentHandler.GroupStore`** holds the groups by level as
  `seq<seq<Group>>`. The position of a group in its level's list is its index.
- **`TeamRanking.TeamRankingComponent`**, **`BasicTable.BasicTableData`** and
  **`ClubList.ClubListComponent`** are the front-end components.

Each of these methods is proved against a specification function:

- `Adjusted` and `Removed` for the two resizing walks;
- `PopulateLinks` for the population;
- `FightsCreated` and `WithLevelFights` for fight creation;
- `Toggled` for the column toggle;
- `Normalize` for the filter.

Those functions are in turn related by lemmas to an independent description
of the tree, the canonical halving chain `TreeShape.CanonicalCounts`. The first
base group added to an empty store gives the canonical tree over one base
group. From then on, adding a base group to the canonical tree over `b >= 1`
base groups gives the canonical tree over `b + 1`. Removing one goes back
while `b <= 2^30 - 1`, half the removal sentinel `Integer.MAX_VALUE - 1`.
Past that bound the source trims the base level as well.
Removing the only base group empties the tree with one winner per group. With
two winners it leaves the level-1 group in place (see "## Left out"). The lemmas also relate the back-end
draw guard to the controller's draw query and to the front-end warning.

Things the model receives as inputs instead of computing them:

- the rankings, as a function from a group reference to a list of
  `(team, sortingIndex)`;
- the group links;
- the per-group fight generator;
- the tournament's `NUMBER_OF_WINNERS` property text.

## Model

| member | source | states |
|---|---|---|
| JavaIntegers.ParseInt | backend/kendo-tournament-core/src/main/java/com/softwaremagico/kt/core/tournaments/TreeTournamentHandler.java:96-100 | Integer.parseInt succeeds exactly when, after one optional leading sign, the text is a non-empty run of decimal digits whose value, negated after a minus, lies in Java's int range; the result is that value |
| JavaIntegers.ParseIntRoundTrip | backend/kendo-tournament-core/src/main/java/com/softwaremagico/kt/core/tournaments/TreeTournamentHandler.java:97 | every int written in decimal parses back to itself |
| JavaIntegers.ParseIntRejects | backend/kendo-tournament-core/src/main/java/com/softwaremagico/kt/core/tournaments/TreeTournamentHandler.java:96-100 | the empty text, a lone sign, a word and a decimal fraction do not parse |
| JavaIntegers.ParseIntLeadingZero | backend/kendo-tournament-core/src/main/java/com/softwaremagico/kt/core/tournaments/TreeTournamentHandler.java:97 | a leading zero before a run of digits does not change the value read ("002" reads as 2) |
| JavaIntegers.ParseIntPlusSign | backend/kendo-tournament-core/src/main/java/com/softwaremagico/kt/core/tournaments/TreeTournamentHandler.java:97 | a leading plus sign does not change the value read ("+2" reads as 2) |
| TreeTournamentHandler.GetNumberOfWinners | backend/kendo-tournament-core/src/main/java/com/softwaremagico/kt/core/tournaments/TreeTournamentHandler.java:91-103 | the parsed property value when the property exists and parses, 1 when it is missing or does not parse; always an int |
| TreeTournamentHandler.NumberOfWinnersRoundTrip | backend/kendo-tournament-core/src/main/java/com/softwaremagico/kt/core/tournaments/TreeTournamentHandler.java:91-103 | a number of winners stored as its decimal text is read back unchanged |
| TreeTournamentHandler.NumberOfWinnersDefaults | backend/kendo-tournament-core/src/main/java/com/softwaremagico/kt/core/tournaments/TreeTournamentHandler.java:95-102 | a missing, empty or non-numeric property means one winner |
| Entities.NewGroup | backend/kendo-tournament-core/src/main/java/com/softwaremagico/kt/core/tournaments/TreeTournamentHandler.java:136 | a new group belongs to its level and has no teams and no fights |
| Entities.ScoresAt | frontend/src/app/components/team-ranking/team-ranking.component.ts:77 | the ranking entries kept are exactly those whose sorting index is the one asked for, in their ranking order (see ScoresAtAppend and ScoresAtSingle) |
| Entities.ScoresAtAppend | frontend/src/app/components/team-ranking/team-ranking.component.ts:77 | filtering a ranking by sorting index distributes over concatenation, so the entries kept stay in ranking order |
| Entities.ScoresAtSingle | frontend/src/app/components/team-ranking/team-ranking.component.ts:77 | a single entry is kept exactly when its sorting index is the one asked for |
| Entities.TeamsOf | frontend/src/app/components/team-ranking/team-ranking.component.ts:84-86 | the teams of the ranking entries, one per entry, in order |
| GroupLevels.Height | backend/kendo-tournament-core/src/main/java/com/softwaremagico/kt/core/tournaments/TreeTournamentHandler.java:144 | the number of levels holding groups: every level below it holds a group, the level at it holds none |
| GroupLevels.WithBaseGroup | backend/kendo-tournament-core/src/main/java/com/softwaremagico/kt/core/tournaments/TreeTournamentHandler.java:124 | the new group is appended to level 0 and every other level is unchanged |
| GroupLevels.DeleteBaseGroup | backend/kendo-tournament-core/src/main/java/com/softwaremagico/kt/core/tournaments/TreeTournamentHandler.java:159 | the group at that index of level 0 is cut out and the later ones move down; any other request deletes nothing |
| GroupLevels.DeleteKeepsTags | backend/kendo-tournament-core/src/main/java/com/softwaremagico/kt/core/tournaments/TreeTournamentHandler.java:159 | after the deletion every group is still stored under its own level |
| TreeShape.JavaHalf | backend/kendo-tournament-core/src/main/java/com/softwaremagico/kt/core/tournaments/TreeTournamentHandler.java:135 | Java's halving of an int, truncating toward zero: for a non-negative value the result is the floor of its half, for a negative value the ceiling |
| TreeShape.GrowthBound | backend/kendo-tournament-core/src/main/java/com/softwaremagico/kt/core/tournaments/TreeTournamentHandler.java:135 | the size a level grows to: with a multiplier of one it is half the previous level's size plus one, rounded down (so twice it lies between that size and that size plus one); on level 1 with two winners it is the previous size plus one |
| TreeShape.Grown | backend/kendo-tournament-core/src/main/java/com/softwaremagico/kt/core/tournaments/TreeTournamentHandler.java:133-141 | the growing walk leaves level 0 as it is and gives any other level at most one more group |
| TreeShape.AdjustedCounts | backend/kendo-tournament-core/src/main/java/com/softwaremagico/kt/core/tournaments/TreeTournamentHandler.java:129-151 | after adjustGroupsSize the base level is unchanged, every level gains at most one group, and a new final level, if any, holds a single group |
| TreeShape.NeedsNewLevel | backend/kendo-tournament-core/src/main/java/com/softwaremagico/kt/core/tournaments/TreeTournamentHandler.java:144 | a new final level is needed when the grown last level holds more than one group, or when there is a single level and more than one winner per group; AdjustedLength and EnlargedNeedsNewLevel state when it holds |
| TreeShape.AdjustedLength | backend/kendo-tournament-core/src/main/java/com/softwaremagico/kt/core/tournaments/TreeTournamentHandler.java:144-150 | a level is added exactly when the grown last level holds more than one group, or there is a single level and more than one winner |
| TreeShape.Trimmed | backend/kendo-tournament-core/src/main/java/com/softwaremagico/kt/core/tournaments/TreeTournamentHandler.java:166-179 | the trimming walk removes at most one group from each level and never adds one |
| TreeShape.TrimPrevious | backend/kendo-tournament-core/src/main/java/com/softwaremagico/kt/core/tournaments/TreeTournamentHandler.java:166-178 | the previous size the trimming walk carries is never negative |
| TreeShape.ShouldTrim | backend/kendo-tournament-core/src/main/java/com/softwaremagico/kt/core/tournaments/TreeTournamentHandler.java:169-177 | a visited level loses a group when, for one winner or above level 1, the previous level was left with one group or the level exceeds half that size rounded up, or, for two winners, the level exceeds the previous size; TrimDecision proves the trimming walk applies exactly this test |
| TreeShape.TrimmedPrefix | backend/kendo-tournament-core/src/main/java/com/softwaremagico/kt/core/tournaments/TreeTournamentHandler.java:166-179 | how a level is trimmed depends only on the levels up to it |
| TreeShape.TrimmingKeepsBaseLevel | backend/kendo-tournament-core/src/main/java/com/softwaremagico/kt/core/tournaments/TreeTournamentHandler.java:166-179 | while the base level holds no more than half the sentinel, removeGroup's walk leaves level 0 alone and takes at most one group from each other level |
| TreeShape.BaseLevelTrimmedPastBound | backend/kendo-tournament-core/src/main/java/com/softwaremagico/kt/core/tournaments/TreeTournamentHandler.java:166-171 | with one winner, a base level holding more than half the sentinel is compared with the sentinel and loses one group |
| TreeShape.CanonicalLast | backend/kendo-tournament-core/src/main/java/com/softwaremagico/kt/core/tournaments/TreeTournamentHandler.java:168-174 | the reference tree the two comments describe (each level half the previous one rounded up, level 1 as large as level 0 with two winners) ends in a single group |
| TreeShape.ChainEnd | backend/kendo-tournament-core/src/main/java/com/softwaremagico/kt/core/tournaments/TreeTournamentHandler.java:168 | the halving chain reaches one group exactly at its last level |
| TreeShape.ChainStep | backend/kendo-tournament-core/src/main/java/com/softwaremagico/kt/core/tournaments/TreeTournamentHandler.java:168 | one more base group changes every level of the halving chain by at most one group |
| TreeShape.ChainLengthStep | backend/kendo-tournament-core/src/main/java/com/softwaremagico/kt/core/tournaments/TreeTournamentHandler.java:144-150 | one more base group adds a level to the chain exactly when the old last level grows to two groups |
| TreeShape.GrownFollowsCanonical | backend/kendo-tournament-core/src/main/java/com/softwaremagico/kt/core/tournaments/TreeTournamentHandler.java:133-141 | growing the canonical tree whose base level received a group yields, level by level, the canonical tree over one more base group |
| TreeShape.GrownLevelsFollowCanonical | backend/kendo-tournament-core/src/main/java/com/softwaremagico/kt/core/tournaments/TreeTournamentHandler.java:133-141 | the grown levels are the leading levels of the canonical tree over one more base group |
| TreeShape.EnlargedNeedsNewLevel | backend/kendo-tournament-core/src/main/java/com/softwaremagico/kt/core/tournaments/TreeTournamentHandler.java:144-150 | after the growing, a new level is opened exactly when the larger canonical tree has one more level, and that level holds one group |
| TreeShape.AddingKeepsCanonical | backend/kendo-tournament-core/src/main/java/com/softwaremagico/kt/core/tournaments/TreeTournamentHandler.java:120-151 | adding a base group to the canonical tree over b groups and adjusting gives the canonical tree over b + 1 groups, for b ≥ 1 and one or two winners |
| TreeShape.FirstGroupCanonical | backend/kendo-tournament-core/src/main/java/com/softwaremagico/kt/core/tournaments/TreeTournamentHandler.java:129-151 | a single base group, once adjusted, is the canonical tree over one base group: one level with one winner, and a level-1 group above it with two |
| TreeShape.TrimmedFollowsCanonical | backend/kendo-tournament-core/src/main/java/com/softwaremagico/kt/core/tournaments/TreeTournamentHandler.java:166-179 | trimming for 1 ≤ b ≤ 2^30 − 1 (half the sentinel of line 166), the canonical tree over b + 1 groups after one base group is removed gives, level by level, the canonical tree over b groups, and empties the level it no longer needs |
| TreeShape.RemovingKeepsCanonical | backend/kendo-tournament-core/src/main/java/com/softwaremagico/kt/core/tournaments/TreeTournamentHandler.java:154-180 | removing a base group from the canonical tree over b + 1 groups and trimming gives the canonical tree over b groups, for 1 ≤ b ≤ 2^30 − 1 (half the sentinel of line 166), plus an empty level when the larger tree was taller |
| TreeShape.RemovingOnlyBaseGroup | backend/kendo-tournament-core/src/main/java/com/softwaremagico/kt/core/tournaments/TreeTournamentHandler.java:164-177 | removing the only base group leaves no groups with one winner; with two winners level 0 is no longer visited, so level 1 is compared with the sentinel and keeps its group |
| TreeShape.StaleLevelAfterReAdd | backend/kendo-tournament-core/src/main/java/com/softwaremagico/kt/core/tournaments/TreeTournamentHandler.java:129-151 | with two winners, adding a base group to the tree left by removing the only one gives levels of 1, 2 and 1 groups, where the canonical tree over one base group has 1 and 1 |
| TreeShape.AddThenRemoveRestoresShape | backend/kendo-tournament-core/src/main/java/com/softwaremagico/kt/core/tournaments/TreeTournamentHandler.java:120-180 | for 1 ≤ b ≤ 2^30 − 1 (half the sentinel of line 166), adding a base group and removing one again restores the canonical shape |
| TreeShape.FiveBaseGroupsExample | backend/kendo-tournament-core/src/main/java/com/softwaremagico/kt/core/tournaments/TreeTournamentHandler.java:133-150 | five base groups with one winner give levels of 5, 3, 2 and 1 groups, and adding a fifth group to 4, 2, 1 grows it to that |
| TreeTournamentHandler.GrownUpTo | backend/kendo-tournament-core/src/main/java/com/softwaremagico/kt/core/tournaments/TreeTournamentHandler.java:134-141 | the levels the growing walk has passed hold their grown groups, and the others are untouched |
| TreeTournamentHandler.GrowthDecision | backend/kendo-tournament-core/src/main/java/com/softwaremagico/kt/core/tournaments/TreeTournamentHandler.java:135 | the walk adds a group exactly when the level holds fewer groups than half of the previous grown size plus one, times the winners at level 1 |
| TreeTournamentHandler.GrowStep | backend/kendo-tournament-core/src/main/java/com/softwaremagico/kt/core/tournaments/TreeTournamentHandler.java:134-141 | one step of the growing walk changes only the level it visits |
| TreeTournamentHandler.NewLevel | backend/kendo-tournament-core/src/main/java/com/softwaremagico/kt/core/tournaments/TreeTournamentHandler.java:145-149 | the new level holds one group at index 0 and no other level changes |
| TreeTournamentHandler.Adjusted | backend/kendo-tournament-core/src/main/java/com/softwaremagico/kt/core/tournaments/TreeTournamentHandler.java:129-151 | the levels adjustGroupsSize leaves: every level grown by the walk, then a new final level of one group when needed; AdjustedShape, AdjustedLevels, AdjustedKeepsGroups and AdjustedKeepsTags prove its counts and that existing groups are kept |
| TreeTournamentHandler.AdjustedAfterWalk | backend/kendo-tournament-core/src/main/java/com/softwaremagico/kt/core/tournaments/TreeTournamentHandler.java:143-150 | after the walk, the new level is added exactly under the source's condition |
| TreeTournamentHandler.WalkedCounts | backend/kendo-tournament-core/src/main/java/com/softwaremagico/kt/core/tournaments/TreeTournamentHandler.java:133-141 | every level the walk passes holds as many groups as the growing rule gives it, and at least one |
| TreeTournamentHandler.AdjustedShape | backend/kendo-tournament-core/src/main/java/com/softwaremagico/kt/core/tournaments/TreeTournamentHandler.java:129-151 | the group counts after adjustGroupsSize are AdjustedCounts of the counts before, and the levels holding groups stay at the bottom of the tree |
| TreeTournamentHandler.AdjustedLevels | backend/kendo-tournament-core/src/main/java/com/softwaremagico/kt/core/tournaments/TreeTournamentHandler.java:129-151 | level by level, the adjusted store holds the adjusted counts and nothing above them |
| TreeTournamentHandler.AdjustedKeepsGroups | backend/kendo-tournament-core/src/main/java/com/softwaremagico/kt/core/tournaments/TreeTournamentHandler.java:136-138 | every group keeps its index; a level gains at most one group, a new one at the end with the next index |
| TreeTournamentHandler.AdjustedKeepsTags | backend/kendo-tournament-core/src/main/java/com/softwaremagico/kt/core/tournaments/TreeTournamentHandler.java:136-146 | the groups created belong to the level they are put in |
| TreeTournamentHandler.TrimmedUpTo | backend/kendo-tournament-core/src/main/java/com/softwaremagico/kt/core/tournaments/TreeTournamentHandler.java:167-179 | the levels the trimming walk has passed are cut to their trimmed size from the end, and the others are untouched |
| TreeTournamentHandler.TrimDecision | backend/kendo-tournament-core/src/main/java/com/softwaremagico/kt/core/tournaments/TreeTournamentHandler.java:169-178 | a visited level loses its last group exactly when one of the two trimming conditions holds; a level without groups is not visited and leaves the previous size as it was |
| TreeTournamentHandler.TrimStep | backend/kendo-tournament-core/src/main/java/com/softwaremagico/kt/core/tournaments/TreeTournamentHandler.java:167-179 | one step of the trimming walk changes only the level it visits |
| TreeTournamentHandler.TrimmedShape | backend/kendo-tournament-core/src/main/java/com/softwaremagico/kt/core/tournaments/TreeTournamentHandler.java:171-176 | trimming only removes the highest-index group, at most one per level, and the counts follow TrimmedCounts |
| TreeTournamentHandler.TrimmedLevels | backend/kendo-tournament-core/src/main/java/com/softwaremagico/kt/core/tournaments/TreeTournamentHandler.java:166-179 | the trimming walk over a whole arrangement of levels; TrimmedShape proves it only drops groups from the end of levels, at most one each, with the counts of TrimmedCounts |
| TreeTournamentHandler.Removed | backend/kendo-tournament-core/src/main/java/com/softwaremagico/kt/core/tournaments/TreeTournamentHandler.java:154-180 | the levels removeGroup leaves: the base group deleted, then the trimming walk; RemoveGroupKeepsCanonical proves it turns the canonical tree over b + 1 base groups into the one over b, for 1 ≤ b ≤ 2^30 − 1 |
| TreeTournamentHandler.RemovedKeepsTags | backend/kendo-tournament-core/src/main/java/com/softwaremagico/kt/core/tournaments/TreeTournamentHandler.java:171-176 | trimming keeps every group under its own level |
| TreeTournamentHandler.BaseGroupAddedShape | backend/kendo-tournament-core/src/main/java/com/softwaremagico/kt/core/tournaments/TreeTournamentHandler.java:124 | adding a base group makes only level 0 one group larger |
| TreeTournamentHandler.AddGroupKeepsCanonical | backend/kendo-tournament-core/src/main/java/com/softwaremagico/kt/core/tournaments/TreeTournamentHandler.java:120-151 | on the store, addGroup turns the canonical tree over b ≥ 1 base groups into the one over b + 1 |
| TreeTournamentHandler.FirstAddIsCanonical | backend/kendo-tournament-core/src/main/java/com/softwaremagico/kt/core/tournaments/TreeTournamentHandler.java:120-151 | on a store without groups, such as a new one, addGroup leaves the canonical tree over one base group |
| TreeTournamentHandler.PackedCounts | backend/kendo-tournament-core/src/main/java/com/softwaremagico/kt/core/tournaments/TreeTournamentHandler.java:164-167 | when the levels holding groups are at the bottom, the level counts the trimming walk sees are the shape followed by empty levels |
| TreeTournamentHandler.RemoveGroupKeepsCanonical | backend/kendo-tournament-core/src/main/java/com/softwaremagico/kt/core/tournaments/TreeTournamentHandler.java:154-180 | on the store, removeGroup of a base group turns the canonical tree over b + 1 base groups into the one over b, for 1 ≤ b ≤ 2^30 − 1 (half the sentinel of line 166) |
| TreeTournamentHandler.RemoveOnlyBaseGroup | backend/kendo-tournament-core/src/main/java/com/softwaremagico/kt/core/tournaments/TreeTournamentHandler.java:154-180 | on the store, removeGroup of the only base group leaves no groups with one winner; with two winners level 0 is empty and the level-1 group is kept |
| TreeTournamentHandler.RemovedCanonicalCounts | backend/kendo-tournament-core/src/main/java/com/softwaremagico/kt/core/tournaments/TreeTournamentHandler.java:154-180 | the same, level by level, for 1 ≤ b ≤ 2^30 − 1 (half the sentinel of line 166): each level holds its canonical count, and any level above holds nothing |
| TreeTournamentHandler.GrowWalk | backend/kendo-tournament-core/src/main/java/com/softwaremagico/kt/core/tournaments/TreeTournamentHandler.java:133-141 | the loop over the levels carrying previousLevelSize produces exactly the grown levels |
| TreeTournamentHandler.GrowLevel | backend/kendo-tournament-core/src/main/java/com/softwaremagico/kt/core/tournaments/TreeTournamentHandler.java:135-140 | one loop iteration grows its level as the rule says and returns the new previousLevelSize |
| TreeTournamentHandler.TrimWalk | backend/kendo-tournament-core/src/main/java/com/softwaremagico/kt/core/tournaments/TreeTournamentHandler.java:166-179 | the trimming loop carrying previousLevelSize produces exactly the trimmed levels |
| TreeTournamentHandler.GroupStore.constructor | backend/kendo-tournament-core/src/main/java/com/softwaremagico/kt/core/tournaments/TreeTournamentHandler.java:131-132 | a store starts with no groups |
| TreeTournamentHandler.GroupStore.AdjustGroupsSize | backend/kendo-tournament-core/src/main/java/com/softwaremagico/kt/core/tournaments/TreeTournamentHandler.java:129-151 | the store becomes Adjusted of the old store, and every group stays under its own level |
| TreeTournamentHandler.GroupStore.AddGroup | backend/kendo-tournament-core/src/main/java/com/softwaremagico/kt/core/tournaments/TreeTournamentHandler.java:120-127 | a group above level 0 is refused with InvalidGroup and the store is unchanged; otherwise the group is returned and the store is the adjusted store with the group appended to level 0 |
| TreeTournamentHandler.GroupStore.RemoveGroup | backend/kendo-tournament-core/src/main/java/com/softwaremagico/kt/core/tournaments/TreeTournamentHandler.java:154-180 | a level above 0 is refused with InvalidGroup and the store is unchanged; otherwise the base group is deleted and the levels are trimmed |
| TreeTournamentHandler.GroupStore.PopulateLevel | backend/kendo-tournament-core/src/main/java/com/softwaremagico/kt/core/tournaments/TreeTournamentHandler.java:217-234 | only the links into the level are used; on success the store is PopulateLinks of the old store; on a draw the draw error is returned and the store is unchanged |
| TreeTournamentHandler.GroupStore.CreateFights | backend/kendo-tournament-core/src/main/java/com/softwaremagico/kt/core/tournaments/TreeTournamentHandler.java:183-203 | the groups of the level receive their generated fights, and the result is exactly those fights in group order |
| TreeTournamentHandler.GroupStore.GenerateNextFights | backend/kendo-tournament-core/src/main/java/com/softwaremagico/kt/core/tournaments/TreeTournamentHandler.java:248-267 | with no group lacking teams it returns no fights and changes nothing; otherwise it populates the next level and creates its fights, and a draw stops it with the store unchanged |
| LevelPopulation.FirstDraw | backend/kendo-tournament-core/src/main/java/com/softwaremagico/kt/core/tournaments/TreeTournamentHandler.java:237-244 | the smallest shared position in the range; none when no position in it is shared |
| LevelPopulation.DrawCheck | backend/kendo-tournament-core/src/main/java/com/softwaremagico/kt/core/tournaments/TreeTournamentHandler.java:236-245 | fails exactly when some position 0 .. winner is shared by two or more teams, with LevelNotFinished naming the first such position |
| LevelPopulation.CheckDrawScore | backend/kendo-tournament-core/src/main/java/com/softwaremagico/kt/core/tournaments/TreeTournamentHandler.java:236-245 | the position-by-position loop returns DrawCheck |
| LevelPopulation.FirstEmptyFrom | backend/kendo-tournament-core/src/main/java/com/softwaremagico/kt/core/tournaments/TreeTournamentHandler.java:209-214 | the first group from that position on without teams; none when every group has teams |
| LevelPopulation.NextEmptyLevel | backend/kendo-tournament-core/src/main/java/com/softwaremagico/kt/core/tournaments/TreeTournamentHandler.java:205-215 | a level is found exactly when some group has no teams |
| LevelPopulation.NextEmptyLevelAt | backend/kendo-tournament-core/src/main/java/com/softwaremagico/kt/core/tournaments/TreeTournamentHandler.java:209-213 | the result is the level of the first group, in list order, without teams |
| LevelPopulation.GetNextEmptyLevel | backend/kendo-tournament-core/src/main/java/com/softwaremagico/kt/core/tournaments/TreeTournamentHandler.java:205-215 | the loop over the groups returns NextEmptyLevel |
| LevelPopulation.AllGroupsFrom | backend/kendo-tournament-core/src/main/java/com/softwaremagico/kt/core/tournaments/TreeTournamentHandler.java:250 | the listed groups are exactly the groups of the levels from that level on |
| LevelPopulation.NextEmptyLevelIsLowest | backend/kendo-tournament-core/src/main/java/com/softwaremagico/kt/core/tournaments/TreeTournamentHandler.java:255-259 | the next level is the lowest level holding a group without teams; with none, every group has teams |
| LevelPopulation.SkipFilledPrefix | backend/kendo-tournament-core/src/main/java/com/softwaremagico/kt/core/tournaments/TreeTournamentHandler.java:209-213 | groups that all have teams ahead of the list do not change the next level |
| LevelPopulation.LevelLinks | backend/kendo-tournament-core/src/main/java/com/softwaremagico/kt/core/tournaments/TreeTournamentHandler.java:219 | the links kept are exactly those whose destination is on the level, in their original order (see LevelLinksAppend and LevelLinksSingle) |
| LevelPopulation.LevelLinksAppend | backend/kendo-tournament-core/src/main/java/com/softwaremagico/kt/core/tournaments/TreeTournamentHandler.java:219 | filtering links by destination level distributes over concatenation, so the kept links stay in order |
| LevelPopulation.LevelLinksSingle | backend/kendo-tournament-core/src/main/java/com/softwaremagico/kt/core/tournaments/TreeTournamentHandler.java:219 | a single link is kept exactly when its destination is on the level |
| LevelPopulation.PopulateLinks | backend/kendo-tournament-core/src/main/java/com/softwaremagico/kt/core/tournaments/TreeTournamentHandler.java:217-234 | populateLevel over its links with the null checks taking effect: each link passes the draw guard of its source ranking, then its ranked team is appended to the destination group, a link without that position is skipped, and the first draw fails the whole population; PopulateFailsIffDraw, PopulatedGroups and PopulateKeepsTags prove its properties |
| LevelPopulation.PopulateLinksAsWritten | backend/kendo-tournament-core/src/main/java/com/softwaremagico/kt/core/tournaments/TreeTournamentHandler.java:225 | populateLevel as written, reading the ranking position before the null check: a ranking without that position fails with an index error; AsWrittenAgreesWhenRanked and ShortRankingCounterexample relate it to PopulateLinks |
| LevelPopulation.FightsCreated | backend/kendo-tournament-core/src/main/java/com/softwaremagico/kt/core/tournaments/TreeTournamentHandler.java:183-203 | the fights createFights returns for a level are those generated for the level's groups in index order, and none for a level the store does not have; LevelFightsAreStored proves they are the fights stored |
| LevelPopulation.WithTeam | backend/kendo-tournament-core/src/main/java/com/softwaremagico/kt/core/tournaments/TreeTournamentHandler.java:226 | the team is appended to the destination group's teams and no other group changes |
| LevelPopulation.PopulateFailsIffDraw | backend/kendo-tournament-core/src/main/java/com/softwaremagico/kt/core/tournaments/TreeTournamentHandler.java:221-233 | the population fails exactly when some link's source ranking has a draw among the positions it feeds, and the error is the draw error |
| LevelPopulation.PopulatedGroups | backend/kendo-tournament-core/src/main/java/com/softwaremagico/kt/core/tournaments/TreeTournamentHandler.java:221-232 | a successful population keeps every group in place and appends exactly the teams its links promote, in link order |
| LevelPopulation.PromoteOne | backend/kendo-tournament-core/src/main/java/com/softwaremagico/kt/core/tournaments/TreeTournamentHandler.java:225-226 | one link appends its promoted team and leaves the group otherwise as it was |
| LevelPopulation.WithTeamKeepsTags | backend/kendo-tournament-core/src/main/java/com/softwaremagico/kt/core/tournaments/TreeTournamentHandler.java:226 | appending a team never moves a group to another level |
| LevelPopulation.PopulateKeepsTags | backend/kendo-tournament-core/src/main/java/com/softwaremagico/kt/core/tournaments/TreeTournamentHandler.java:221-233 | a successful population keeps every group under its own level |
| LevelPopulation.AsWrittenAgreesWhenRanked | backend/kendo-tournament-core/src/main/java/com/softwaremagico/kt/core/tournaments/TreeTournamentHandler.java:225-229 | when every ranking has the position its link reads, the code as written and the corrected population agree |
| LevelPopulation.ShortRankingCounterexample | backend/kendo-tournament-core/src/main/java/com/softwaremagico/kt/core/tournaments/TreeTournamentHandler.java:225 | a one-team ranking read at winner 1 fails as written, and the corrected population skips the link |
| LevelPopulation.WithFights | backend/kendo-tournament-core/src/main/java/com/softwaremagico/kt/core/tournaments/TreeTournamentHandler.java:197 | each group receives the fights generated from its own teams, and nothing else changes |
| LevelPopulation.CreatedFightsAreStored | backend/kendo-tournament-core/src/main/java/com/softwaremagico/kt/core/tournaments/TreeTournamentHandler.java:197-199 | the fights returned are exactly the fights stored in the groups, in group order |
| LevelPopulation.WithLevelFights | backend/kendo-tournament-core/src/main/java/com/softwaremagico/kt/core/tournaments/TreeTournamentHandler.java:186-187 | only the groups of the level receive fights |
| LevelPopulation.LevelFightsAreStored | backend/kendo-tournament-core/src/main/java/com/softwaremagico/kt/core/tournaments/TreeTournamentHandler.java:183-203 | the fights returned for the level are those stored in its groups; a level the store does not have gives none and changes nothing |
| LevelPopulation.WithFightsKeepsTags | backend/kendo-tournament-core/src/main/java/com/softwaremagico/kt/core/tournaments/TreeTournamentHandler.java:197 | giving groups fights changes neither their level nor their teams |
| RankingController.CheckLevel | backend/kendo-tournament-core/src/main/java/com/softwaremagico/kt/core/controller/RankingController.java:116-118 | false exactly when the tournament exists and is a king of the mountain |
| RankingController.MemberSet | backend/kendo-tournament-core/src/main/java/com/softwaremagico/kt/core/controller/RankingController.java:111 | the set holds exactly the team's members |
| RankingController.MembersOfIsUnion | backend/kendo-tournament-core/src/main/java/com/softwaremagico/kt/core/controller/RankingController.java:108-114 | a participant is gathered exactly when it is a member of one of the teams |
| RankingController.GetParticipants | backend/kendo-tournament-core/src/main/java/com/softwaremagico/kt/core/controller/RankingController.java:108-114 | the loop returns the union of the members of all the teams |
| RankingController.GetTeamsScoreRanking | backend/kendo-tournament-core/src/main/java/com/softwaremagico/kt/core/controller/RankingController.java:138-144 | no group gives an empty ranking; otherwise the provider ranks the group's teams by its fights and untie duels, globally for a king of the mountain and per level otherwise |
| RankingController.GetTeamsScoreRankingFromGroup | backend/kendo-tournament-core/src/main/java/com/softwaremagico/kt/core/controller/RankingController.java:125-131 | fails with GroupNotFound for that id exactly when the id has no group; otherwise returns that group's ranking |
| RankingController.ConvertAll | backend/kendo-tournament-core/src/main/java/com/softwaremagico/kt/core/controller/RankingController.java:171-172 | each team is converted, in order |
| RankingController.GetTeamsByPosition | backend/kendo-tournament-core/src/main/java/com/softwaremagico/kt/core/controller/RankingController.java:168-174 | the positions are exactly the provider's, each with its list converted element by element |
| RankingController.FirstDrawPosition | backend/kendo-tournament-core/src/main/java/com/softwaremagico/kt/core/controller/RankingController.java:178-184 | returns the teams of the first position below maxWinners held by more than one team; empty exactly when every such position holds at most one; a missing position before any draw is an error naming it |
| RankingController.GetFirstTeamsWithDrawScore | backend/kendo-tournament-core/src/main/java/com/softwaremagico/kt/core/controller/RankingController.java:176-185 | the early-exit loop returns FirstDrawPosition from position 0 |
| RankingController.PositionsFirstDraw | backend/kendo-tournament-core/src/main/java/com/softwaremagico/kt/core/controller/RankingController.java:178-184 | on positions built from a ranking, the controller's search finds the first shared sorting index of the ranking |
| RankingController.StrictCutoffMatchesGuard | backend/kendo-tournament-core/src/main/java/com/softwaremagico/kt/core/controller/RankingController.java:176-185 | with maxWinners = winner + 1, the strict cutoff finds no draw exactly when the back-end guard passes, and otherwise finds the position the guard reports |
| RankingController.GetTeam | backend/kendo-tournament-core/src/main/java/com/softwaremagico/kt/core/controller/RankingController.java:187-193 | a team exactly when 0 <= order < size, and then the team at that position |
| TeamRanking.TeamRankingComponent.constructor | frontend/src/app/components/team-ranking/team-ranking.component.ts:27-49 | no ranking loaded yet, the finished flag from the dialog data, no draws and no warnings |
| TeamRanking.TeamRankingComponent.IsDrawWinner | frontend/src/app/components/team-ranking/team-ranking.component.ts:76-78 | true exactly when the ranking is loaded, the fights are finished and two or more entries share the index |
| TeamRanking.TeamRankingComponent.GetDrawWinners | frontend/src/app/components/team-ranking/team-ranking.component.ts:80-89 | the teams of exactly the entries with that index, in ranking order, or none before loading and finishing; more than one team exactly when isDrawWinner holds |
| TeamRanking.TeamRankingComponent.OnGroupRankingLoaded | frontend/src/app/components/team-ranking/team-ranking.component.ts:58-64 | stores the ranking; a draw at position 0, or at position 1 when the property reads "2", adds the drawScore warning and sets existsDraws, which is never cleared |
| TeamRanking.TeamRankingComponent.OnTournamentRankingLoaded | frontend/src/app/components/team-ranking/team-ranking.component.ts:66-71 | stores the ranking and leaves the draw state and the warnings alone |
| TeamRanking.DrawWarningAgreesWithGuard | frontend/src/app/components/team-ranking/team-ranking.component.ts:60 | with one or two winners, the warning fires exactly when the back-end guard refuses the last qualifying position |
| TeamRanking.DrawWarning | frontend/src/app/components/team-ranking/team-ranking.component.ts:58-63 | the draw warning fires, once the fights are finished, for a draw at the first position, or at the second when the number-of-winners property reads exactly "2"; DrawWarningAgreesWithGuard and DrawWarningDiverges compare it with the back-end guard |
| TeamRanking.DrawWarningDiverges | frontend/src/app/components/team-ranking/team-ranking.component.ts:60 | with the property "02", the back end guards positions 0 .. 1 and refuses a draw at 1 while the front end does not warn |
| TableColumns.RemoveAt | frontend/src/app/components/basic/basic-table/basic-table.component.ts:72 | splice(index, 1) removes exactly the element at index: the elements before it stay where they were, the later ones move down by one, and the list is one shorter |
| TableColumns.ToggledSelection | frontend/src/app/components/basic/basic-table/basic-table.component.ts:53-59 | the row becomes selected exactly when it was not the selection, and the selection is cleared exactly when it was |
| TableColumns.IndexOf | frontend/src/app/components/basic/basic-table/basic-table.component.ts:71 | -1 exactly when the column is absent; otherwise the position of its first occurrence |
| TableColumns.KeepInOrder | frontend/src/app/components/basic/basic-table/basic-table.component.ts:80-84 | the rebuilt list holds exactly the table columns that are to be kept |
| TableColumns.Toggled | frontend/src/app/components/basic/basic-table/basic-table.component.ts:70-86 | hiding shortens the list by one; showing gives exactly the table columns that were visible or are the toggled one |
| TableColumns.HideRemovesFirstOccurrence | frontend/src/app/components/basic/basic-table/basic-table.component.ts:71-73 | hiding cuts out the first occurrence of the column and keeps the other entries in order |
| TableColumns.KeepAtMostColumns | frontend/src/app/components/basic/basic-table/basic-table.component.ts:78-84 | no column appears in the rebuilt list more often than in the table |
| TableColumns.ToggleCounts | frontend/src/app/components/basic/basic-table/basic-table.component.ts:70-86 | hiding removes exactly one occurrence; showing yields only table columns, none more often than the table lists it |
| TableColumns.KeepCongruent | frontend/src/app/components/basic/basic-table/basic-table.component.ts:80-84 | the rebuild depends only on which columns are kept, not on the order or repeats of the old list |
| TableColumns.KeepDistinct | frontend/src/app/components/basic/basic-table/basic-table.component.ts:80-84 | the rebuild of a table without repeated columns has no repeats |
| TableColumns.KeepIsCanonical | frontend/src/app/components/basic/basic-table/basic-table.component.ts:80-84 | a rebuilt list is in table order: rebuilding it again changes nothing |
| TableColumns.HideMiddle | frontend/src/app/components/basic/basic-table/basic-table.component.ts:71-73 | hiding a column with no earlier occurrence cuts out exactly that entry |
| TableColumns.DropShown | frontend/src/app/components/basic/basic-table/basic-table.component.ts:70-86 | hiding a column just shown gives back the list it was shown on |
| TableColumns.ToggleKeepsCanonical | frontend/src/app/components/basic/basic-table/basic-table.component.ts:70-86 | toggling keeps a visible list in table order, without repeats |
| TableColumns.HideCanonical | frontend/src/app/components/basic/basic-table/basic-table.component.ts:71-73 | hiding a column of a list in table order leaves it in table order without that column, and showing it again restores the list |
| TableColumns.ToggleFlipsVisibility | frontend/src/app/components/basic/basic-table/basic-table.component.ts:70-86 | for a table column, toggling flips whether it is visible |
| TableColumns.ToggleTwiceRestores | frontend/src/app/components/basic/basic-table/basic-table.component.ts:70-86 | toggling the same table column twice restores the visible list |
| TableColumns.ToggleUnknownColumn | frontend/src/app/components/basic/basic-table/basic-table.component.ts:74-85 | toggling a name that is not a table column leaves a list in table order unchanged |
| TextFilter.TrimWith | frontend/src/app/components/basic/basic-table/basic-table.component.ts:63 | the result is a slice of the text with only white space before and after it, and it neither starts nor ends with white space |
| TextFilter.Trim | frontend/src/app/components/basic/basic-table/basic-table.component.ts:63 | the same for the characters String.prototype.trim removes |
| TextFilter.LowerChar | frontend/src/app/components/basic/basic-table/basic-table.component.ts:63 | an upper-case letter A to Z becomes its lower-case letter (code point plus 32), every other character is kept, and the result is never A to Z |
| TextFilter.LowerKeepsSpace | frontend/src/app/components/basic/basic-table/basic-table.component.ts:63 | lowering neither removes nor creates white space |
| TextFilter.ToLower | frontend/src/app/components/basic/basic-table/basic-table.component.ts:63 | the text is lowered character by character, keeping its length |
| TextFilter.TrimTrimmed | frontend/src/app/components/basic/basic-table/basic-table.component.ts:63 | a text without white space at either end is kept as it is by trimming |
| TextFilter.LowerTwice | frontend/src/app/components/basic/basic-table/basic-table.component.ts:63 | lowering twice is lowering once |
| TextFilter.NormalizedShape | frontend/src/app/components/basic/basic-table/basic-table.component.ts:61-64 | the stored filter has no white space at either end and no upper-case letter A to Z |
| TextFilter.NormalizeIdempotent | frontend/src/app/components/basic/basic-table/basic-table.component.ts:61-64 | typing the stored filter again stores the same filter |
| BasicTable.BasicTableComponent.SetSelectedItem | frontend/src/app/components/basic/basic-table/basic-table.component.ts:53-59 | the selection toggles as ToggledSelection says, and nothing else changes |
| BasicTable.BasicTableComponent.Filter | frontend/src/app/components/basic/basic-table/basic-table.component.ts:61-64 | the filter becomes the trimmed, lower-cased text, and nothing else changes |
| BasicTable.BasicTableComponent.IsColumnVisible | frontend/src/app/components/basic/basic-table/basic-table.component.ts:66-68 | true exactly when the column is in the visible list |
| BasicTable.BasicTableComponent.ToggleColumnVisibility | frontend/src/app/components/basic/basic-table/basic-table.component.ts:70-86 | the splice or the truncate-and-refill loop leaves the visible list as Toggled of the old one; the columns, the selection and the filter are unchanged |
| ClubList.ClubColumnsDistinct | frontend/src/app/club-list/club-list.component.ts:22 | the club table lists no column twice |
| ClubList.InitialColumnsCanonical | frontend/src/app/club-list/club-list.component.ts:22-24 | the initially visible columns are club columns in table order |
| ClubList.ClubToggle | frontend/src/app/club-list/club-list.component.ts:123-139 | toggling keeps the visible list in table order; a club column changes visibility and any other name changes nothing |
| ClubList.ClubListComponent.constructor | frontend/src/app/club-list/club-list.component.ts:22-27 | the eight club columns, name, country and city visible, no selection and an empty filter |
| ClubList.ClubListComponent.SetSelectedItem | frontend/src/app/club-list/club-list.component.ts:66-72 | the selection toggles as ToggledSelection says, and nothing else changes |
| ClubList.ClubListComponent.Filter | frontend/src/app/club-list/club-list.component.ts:114-117 | the data-source filter becomes the trimmed, lower-cased text, and nothing else changes |
| ClubList.ClubListComponent.IsColumnVisible | frontend/src/app/club-list/club-list.component.ts:119-121 | true exactly when the column is in the visible list |
| ClubList.ClubListComponent.ToggleColumnVisibility | frontend/src/app/club-list/club-list.component.ts:123-139 | the visible list becomes Toggled of the old one; the column list never changes; a club column's visibility flips, and any other name changes nothing |

## Left out

- `getMaxGroupFights` and the two fight managers are not modelled. They choose and build a group's fights, and they read a JVM system property (`Boolean.getBoolean`). `CreateFights` takes the per-group generator as a parameter instead.
- Group links, rankings and the ranking provider are not modelled. Link derivation and ranking computation are not part of this model. Links are a `seq<GroupLink>` parameter, and rankings are a function from a group to `(team, sortingIndex)` entries.
- Persistence is not modelled: providers, converters, `save`/`saveAll`/`addGroup` calls, caching and logging. The store's level lists stand for what the providers hold.
- TreeTournamentHandler.GroupStore.AdjustGroupsSize requires the levels holding groups to be levels 0 .. n - 1 with nothing above them (`Packed`), and at least one group (`Height > 0`). With no groups the source throws a NullPointerException at line 144 (`groupsByLevel.get(-1)`); its only caller, addGroup, always adds a group first. The loop runs over `new HashSet<>(keySet())`, which the source relies on to visit levels in ascending order. With a gap in the levels, the source's `groupsByLevel.get(size - 1)` may be null.
- TreeTournamentHandler.GroupStore.AddGroup carries the same requirement on the store after the base group is added.
- TreeShape.GrowthBound uses unbounded integers. The source's `(previousLevelSize + 1) * numberOfWinners` could overflow a Java int for absurd property values. Division truncates toward zero, as in Java.
- TreeShape.TrimmingKeepsBaseLevel holds only while level 0 holds at most half the sentinel (`Integer.MAX_VALUE - 1`). The sentinel is kept literally, so the model trims a base level larger than that, exactly as the source would.
- TreeShape.AddingKeepsCanonical, TreeShape.RemovingKeepsCanonical and the store lemmas built on them (AddGroupKeepsCanonical, RemoveGroupKeepsCanonical) are proved for one or two winners per group. These are the values the trimming rule of removeGroup is written for.
- LevelPopulation.AllGroupsFrom lists the groups level by level and, within a level, by index. This stands for the order of `groupProvider.getGroups`, which the source does not fix. getNextEmptyLevel, generateNextFights and the order of the fights createFights returns (`NextEmptyLevel`, `NextEmptyLevelIsLowest`, `FightsCreated`) inherit that order. With another order, such as a full level-1 group listed before an empty base group, the source can answer a higher level than the model.
- GroupLevels.DeleteBaseGroup assumes that `deleteGroupByLevelAndIndex` shifts the later base groups down, so a group's index stays its position in its level. The provider's renumbering is not part of this model.
- Entities.NewGroup and the other group values keep the level as a `nat`. A group with a negative level, which passes the `level > 0` test of addGroup and removeGroup, cannot be expressed.
- JavaIntegers.ParseInt reads only the ASCII digits 0 to 9. Java's `Character.digit` also accepts the decimal digits of other scripts, which are not modelled.
- TreeShape.AddThenRemoveRestoresShape holds for 1 ≤ b ≤ 2^30 − 1 only, because it rests on TreeShape.RemovingKeepsCanonical.
- TreeShape.RemovingKeepsCanonical holds for 1 ≤ b ≤ 2^30 − 1 only. Above that bound, half the sentinel of line 166, the walk also removes a base group with one winner (TreeShape.BaseLevelTrimmedPastBound), so the tree does not go back. With two winners, removing the only base group keeps the level-1 group, although the comment at TreeTournamentHandler.java line 172 says level 1 must match level 0. TreeShape.RemovingOnlyBaseGroup states what the code does, and TreeShape.StaleLevelAfterReAdd shows that the next addGroup then leaves a non-canonical tree. The model follows the code.
- TreeTournamentHandler.RemovedCanonicalCounts holds for 1 ≤ b ≤ 2^30 − 1 only, for the same two reasons as TreeShape.RemovingKeepsCanonical.
- TreeTournamentHandler.RemoveGroupKeepsCanonical holds for 1 ≤ b ≤ 2^30 − 1 only, for the same two reasons. TreeTournamentHandler.RemoveOnlyBaseGroup states the store after removing the only base group.
- TreeShape.TrimmedFollowsCanonical holds for 1 ≤ b ≤ 2^30 − 1 only, the bound under which the walk leaves level 0 alone.
- TreeShape.AddingKeepsCanonical starts from b ≥ 1. The first add, to an empty tree, is TreeShape.FirstGroupCanonical.
- TreeTournamentHandler.AddGroupKeepsCanonical starts from b ≥ 1. The first add, on a store without groups, is TreeTournamentHandler.FirstAddIsCanonical.
- BasicTable.BasicTableData keeps `columns` and `visibleColumns` as separate sequence values. The page empties `visibleColumns` in place before it reads `columns`, so a caller that passed the same array for both would be left with an empty list; the model assumes the two arrays are distinct.
- A null group list in `generateNextFights`, and its `return null`, are not modelled. The store always has a list.
- A null `winner` in a link is not modelled. Nor is a group link that names a group the store does not hold: `WithTeam` then changes nothing. In the source, the link's destination object is updated and saved directly.
- RankingController.GetTeamsScoreRanking: `GroupDto` always carries a tournament, so a group without a tournament is not modelled. That group would dereference null at RankingController.java line 142.
- RankingController.FirstDrawPosition: a position missing from the provider's map ends the search with `PositionMissing`. The source throws a NullPointerException there.
- A null `maxWinners` is not modelled.
- Java object identity and `HashSet` equality of participants are not modelled. JavaScript `===` on rows and on sorting indexes is modelled as value equality.
- TextFilter.LowerChar lowers only A to Z. JavaScript's `toLowerCase` also lowers other scripts, which is not modelled. Trimming removes the white-space and line-terminator characters of String.prototype.trim.
- The Angular parts are not modelled: dialogs, paginator, table data sources, translations, subscriptions and HTTP services. The two ranking subscriptions of `ngOnInit` are modelled as the callbacks `OnGroupRankingLoaded` and `OnTournamentRankingLoaded`. The warning service is modelled as an appended list of message keys.
- `getTeamsRanking`, `getTeamsScoreRankingFromTournament` and the other provider pass-throughs of the controller are not modelled. They only forward to the provider.

## Findings

| source | as written | input that shows it | evidently intended | confidence | as-written member | corrected member |
|---|---|---|---|---|---|---|
| backend/kendo-tournament-core/src/main/java/com/softwaremagico/kt/core/tournaments/TreeTournamentHandler.java:225 | `teamsRanking.get(link.getWinner())` is called before any check, so a ranking with fewer than `winner + 1` entries throws IndexOutOfBoundsException | a source group whose ranking holds a single team, with no draw, linked with winner 1 (the second of two winners) | the null checks and the warning at lines 227-229 skip a link whose ranking lacks the position, and the population goes on | not executed; medium | LevelPopulation.PopulateLinksAsWritten (shown by LevelPopulation.ShortRankingCounterexample) | LevelPopulation.PopulateLinks (LevelPopulation.PopulateFailsIffDraw, LevelPopulation.AsWrittenAgreesWhenRanked) |
