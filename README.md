# Fantasy league hub: derived-statistics engine

A Dafny model of the rules with which the league hub turns what the league
API delivers into the numbers it shows. The inputs are members, rosters with
their season counters, weekly matchup rows and transactions. The outputs:

- **Games** (`Games`): each league-week's matchup rows are bucketed by
  matchup id. Every bucket of two or more rows becomes one game between its
  two highest scorers, with a margin and a combined total.
- **League records** (`LeagueRecords`): per-(season, owner) point totals.
  Also the five highest and five lowest totals, the five widest margins and
  the five highest combined scores.
- **Past honours** (`Champions`): each prior season's best regular-season
  record and league champion. Manual champion entries come first. Other
  champions are read off the week-17 final.
- **Rivalries** (`Rivalries`): head-to-head tallies for a fixed list of
  owner pairs, whichever side of a game each owner was on.
- **Power scores** (`PowerScores`): a 0.7 / 0.3 blend of relative
  points-for and win percentage. Each member also gets a conference.
- **Standings and seeding** (`Standings`): the sortable standings table and
  the three playoff seeds of each conference. The default rank and the
  seeding share one order.
- **Transaction ledger** (`Ledger`): adds and trades per owner over the
  completed transactions in a date window.
- **News board** (`News`): posting, archiving and clearing the commissioner's
  news items.
- **Week arithmetic** (`Weeks`): the current week, and how many weeks the
  history collector scans.

How the pieces fit:

- `Sleeper` holds the API records and the roster-id-to-name resolution.
- `Base` holds `Option`, `Filter`, `Take` and the string order that stands
  in for `localeCompare`.
- `StableSort` holds one stable insertion sort over a "strictly before"
  relation. It models every `Array.prototype.sort` call of the engine, which
  is stable since ECMAScript 2019. The relation holds of `(a, b)` exactly
  when the source's comparator returns a negative number.
- Where the source fills maps and counters in loops, the model has a
  `method` with a `for` loop. That method is proved equal to a function,
  and the properties are proved about the function. These methods are
  game derivation, rivalry tallies, season totals, the honours pass, the
  owner index and the transaction ledger.
- The pure parts are functions and lemmas. These are the comparators, the
  news handlers, the week rules and the power-score row.
- A JavaScript `Map` is modelled as a Dafny `map` together with the
  sequence of its keys in first-insertion order. That order is the order in
  which `Map` iterates.

## Model

| member | source | states |
|---|---|---|
| Weeks.WeekField | src/App.tsx:174 | the week is `week` when truthy, else `display_week` when truthy, else the fallback |
| Weeks.CurrentWeek | src/App.tsx:174-175 | the current week is present exactly when the chosen field is positive, and is then that field (so week 0 means unknown) |
| Weeks.WeeksUpTo | src/App.tsx:227 | the weeks scanned are exactly 1..endWeek, in order |
| Weeks.CurrentEndWeekClamp | src/App.tsx:221-222 | the current league's end week is within 1..18; it is week-1 when that is in range, 1 below and 18 above |
| Weeks.ScannedWeeksCompleted | src/App.tsx:222-227 | every league scans at least one week, each within 1..18; for the current league every scanned week is before the current week |
| Sleeper.RosterById | src/App.tsx:254 | the roster found has the id and no later roster has it (the last one wins, as in `new Map`); none found means no roster has it |
| Sleeper.MemberById | src/App.tsx:255 | the member found has the id and no later member has it (the last one wins, as in `new Map`); none found means no member has it |
| Sleeper.FindMember | src/App.tsx:314 | `users.find` by id: the member found has the id and no earlier member has it; none found means no member has it |
| Sleeper.FindRoster | src/App.tsx:331 | `rosters.find` by id: the roster found has the id and no earlier roster has it; none found means no roster has it |
| Sleeper.FindContext | src/App.tsx:252 | the context found has the league id and no earlier context has it; none found means no context has it |
| Sleeper.OwnerName | src/App.tsx:1060-1064 | the name is never empty; when the roster with that id has an owner whose member record has a non-empty display name, the name is that display name, otherwise it is the `Roster <id>` label |
| Sleeper.OwnerNameOfLast | src/App.tsx:254-259 | stated on the lists alone: the last roster with the id, owned, and the last member with the owner's id, named, give that member's display name |
| Sleeper.OwnerNameUnknownRoster | src/App.tsx:257-259 | a roster id no roster has resolves to the `Roster <id>` label |
| Sleeper.RosterLabelInjective | src/App.tsx:259 | distinct roster ids get distinct `Roster <id>` labels, so the ledger never merges two unowned rosters under one name |
| Sleeper.TeamNameOf | src/App.tsx:251-264 | a team name carries the row's season; its base is the owner name resolved in the first fetched context of the league, or the `Roster <id>` label when the league was not fetched |
| Base.Filter | src/App.tsx:420 | the kept elements satisfy the predicate and come from the input; every satisfying element is kept; as a multiset the result is contained in the input |
| Base.Take | src/App.tsx:734 | `slice(0, n)`: a prefix of length min(n, length) |
| Base.NatToString | src/App.tsx:259 | the decimal text of a roster id is non-empty and made of digits |
| Base.NatToStringValue | src/App.tsx:259 | the decimal text denotes the number it renders |
| Base.NatToStringInjective | src/App.tsx:259 | distinct numbers render as distinct texts |
| Base.IntToStringInjective | src/App.tsx:259 | distinct integers render as distinct texts, negative ones and only they starting with '-' |
| Base.LexLessIrreflexive | src/App.tsx:1090 | the name order used for `localeCompare` never puts a name before itself |
| Base.LexLessTransitive | src/App.tsx:1090 | the name order is transitive |
| Base.LexLessTotal | src/App.tsx:1090 | any two different names are ordered one way or the other |
| StableSort.SortBy | src/App.tsx:377 | sorting keeps the length and is a permutation of the input |
| StableSort.SortBySorted | src/App.tsx:377 | under a strict weak order the sorted result is in order |
| StableSort.FilterSortBy | src/App.tsx:565-570 | filtering a sorted list equals sorting the filtered list |
| StableSort.Stable | src/App.tsx:278 | elements that tie keep their input order through the sort |
| StableSort.SortByAllTied | src/App.tsx:278 | a list in which nothing is strictly before anything is left as it is |
| StableSort.TopOf | src/App.tsx:750-753 | the first n of a sorted list are in order, come from the input, and nothing left out is strictly before anything kept |
| Games.HigherPointsOrder | src/App.tsx:278 | the bucket comparator (higher points first) is a strict weak order |
| Games.Bucket | src/App.tsx:268-275 | a bucket holds exactly the week's rows with that grouping key |
| Games.Keys | src/App.tsx:268-276 | the bucket keys are distinct and are exactly the keys with a non-empty bucket |
| Games.GroupRows | src/App.tsx:268-275 | the loop's `byMid` map holds every key in first-appearance order, each mapped to its bucket |
| Games.BucketStep | src/App.tsx:269-275 | one more row appends it to its own bucket only, adding its key at the end when new |
| Games.BucketGame | src/App.tsx:277-288 | the game built from a bucket of two or more rows |
| Games.DeriveWeekGames | src/App.tsx:268-289 | the loop over one week's buckets produces that week's games |
| Games.GamesOfBuckets | src/App.tsx:276-289 | the loop over the buckets in key order yields one game per bucket of two or more rows, in that order |
| Games.GamesOverSnoc | src/App.tsx:276-289 | one more bucket adds one game exactly when it holds two or more rows |
| Games.DeriveGames | src/App.tsx:250-290 | the loop over all fetched weeks produces all games, week by week |
| Games.TopIsMax | src/App.tsx:278 | the A side of a bucket scores at least as much as every row in it |
| Games.TopTwoPicksHighest | src/App.tsx:278-279 | A and B are two rows of the bucket; A scores most; B scores at least as much as every other row; A is the first row reaching the top score |
| Games.TopClassStable | src/App.tsx:278 | sorting a bucket keeps the input order among rows with equal points |
| Games.FirstOfTopIsFirstInBucket | src/App.tsx:278 | among rows tied for the top score, A is the earliest in the bucket |
| Games.TopHeadsItsClass | src/App.tsx:278 | A heads the bucket's rows that have its score |
| Games.GameOfPairsTopScorers | src/App.tsx:277-288 | a game has ptsA >= ptsB, margin = ptsA - ptsB >= 0 and total = ptsA + ptsB; its sides are two rows of the bucket, the two top scorers, named by their owners |
| Games.GamesOverShape | src/App.tsx:276-289 | every game of a week is well formed and carries that week and season |
| Games.AllGamesShape | src/App.tsx:250-290 | every derived game is well formed and comes from one of the fetched weeks |
| Games.PairedKeys | src/App.tsx:276-277 | the keys kept are exactly those whose bucket holds at least two rows |
| Games.OneGamePerPairedBucket | src/App.tsx:276-289 | a week has exactly one game per bucket of two or more rows, and none for smaller buckets |
| Games.BucketsPartitionRows | src/App.tsx:268-275 | the bucket sizes add up to the number of rows, so each row is in exactly one bucket |
| Games.PairedKeysBound | src/App.tsx:276-277 | two rows are needed per paired bucket |
| Games.WeekGamesBound | src/App.tsx:268-289 | a week has at most half as many games as rows |
| Games.UnpairedRowAlone | src/App.tsx:271 | a row without a matchup id, whose roster appears once, forms a bucket of its own and so no game |
| Games.TwoRowWeekExample | src/App.tsx:268-289 | two rows with the same matchup id give one game, with the higher scorer as side A |
| Games.TwoRowBuckets | src/App.tsx:268-275 | two rows with matchup id 7 fill one bucket, keyed by that id, in arrival order |
| Games.TwoRowOrder | src/App.tsx:278 | the higher scorer of the two rows sorts first |
| Rivalries.TallyRivalry | src/App.tsx:404-415 | the counting loop produces the tally of the games in order |
| Rivalries.Average | src/App.tsx:416-417 | an average is 0 without games, and otherwise times the number of games gives the total |
| Rivalries.AllRecords | src/App.tsx:403-419 | one record per rivalry, in order, each built from that rivalry's tally |
| Rivalries.BuildRivalryTable | src/App.tsx:401-421 | the loop over the rivalries produces the table |
| Rivalries.TallyBalanced | src/App.tsx:410-414 | winsA + winsB + ties = totalGames |
| Rivalries.TallyCountsMatches | src/App.tsx:408-410 | totalGames is the number of games between the two owners, in either order |
| Rivalries.StepSwapped | src/App.tsx:408-414 | a game counts the same with its sides swapped |
| Rivalries.TallyIgnoresSides | src/App.tsx:405-415 | swapping the sides of any games leaves the tally unchanged |
| Rivalries.TallyMirrored | src/App.tsx:403-419 | naming the pair the other way round swaps the wins and the point totals |
| Rivalries.RivalryTableRows | src/App.tsx:402-420 | shown rivalries have games and balanced counts; every rivalry with games is shown; every row belongs to a listed rivalry |
| LeagueRecords.ValuesOf | src/App.tsx:749 | `Array.from(map.values())` lists the entries in key insertion order |
| LeagueRecords.SeasonTotals | src/App.tsx:737-749 | the loop over the games produces the season-total list, with side B read after side A is stored (the corrected update listed under Findings) |
| LeagueRecords.CreditSide | src/App.tsx:742-746 | one loop step adds a side's points and one game under its key, appending the key when new |
| LeagueRecords.TotalsOfValid | src/App.tsx:737-747 | the totals map and its key order stay in step: distinct keys, each entry filed under its own key |
| LeagueRecords.TotalsOfEntries | src/App.tsx:737-747 | an owner-season has an entry exactly when it played; its points are the sum over its game sides, its games the count of its sides |
| LeagueRecords.CreditHolds | src/App.tsx:742-746 | crediting a key adds the points and one game to that key only, creating its entry on first use |
| LeagueRecords.CreditSums | src/App.tsx:742-746 | crediting one side adds its points and one game to the totals |
| LeagueRecords.AddGameSums | src/App.tsx:737-747 | each game adds ptsA + ptsB and two games to the totals |
| LeagueRecords.SeasonTotalsSums | src/App.tsx:737-749 | the games in the totals add up to twice the number of games, and the points to the sum of the game totals |
| LeagueRecords.AsWrittenAgreesOtherwise | src/App.tsx:742-746 | the source's update agrees with the corrected one unless both sides hit one new key |
| LeagueRecords.AsWrittenAgreesWithoutSelfGames | src/App.tsx:737-747 | over any games in which no game has the same key on both sides, the source's totals equal the corrected ones |
| LeagueRecords.AsWrittenLosesSideA | src/App.tsx:742-746 | as written, a first game with both sides under one key records only side B |
| LeagueRecords.MorePtsTop | src/App.tsx:750 | the season-high list: at most 5, highest points first, drawn from the totals, no left-out total above a kept one |
| LeagueRecords.RecordOrders | src/App.tsx:750-753 | the four record comparators (points down, points up, margin down, combined total down) are strict weak orders |
| LeagueRecords.FewerPtsTop | src/App.tsx:751 | the season-low list: at most 5, lowest points first, no left-out total below a kept one |
| LeagueRecords.WiderMarginTop | src/App.tsx:752 | blowouts: at most 5 games, widest margin first, no left-out game wider than a kept one |
| LeagueRecords.HigherTotalTop | src/App.tsx:753 | highest combined: at most 5 games, highest total first, no left-out game higher than a kept one |
| LeagueRecords.SeasonHighTopFive | src/App.tsx:749-750 | the same, for the season totals of the derived games |
| LeagueRecords.SeasonLowTopFive | src/App.tsx:749-751 | the same, lowest first, for the season totals of the derived games |
| LeagueRecords.BlowoutsTopFive | src/App.tsx:752 | the same, for the derived games by margin |
| LeagueRecords.HighestCombinedTopFive | src/App.tsx:753 | the same, for the derived games by total |
| Champions.BetterRecordOrder | src/App.tsx:306-311 | the best-record comparator (more wins, then more points) is a strict weak order |
| Champions.FindWeek | src/App.tsx:326 | the week found is that league's week and no earlier fetched week matches; none found means it was not fetched |
| Champions.ChampionList | src/App.tsx:341 | one champion per key of the map |
| Champions.ComputeHonours | src/App.tsx:292-343 | the loop over the contexts produces both honours lists |
| Champions.ManualMapContents | src/App.tsx:297-300 | the manual entries are 2023 and 2024 with their recorded scores |
| Champions.PassWellKeyed | src/App.tsx:294-339 | the champion map's keys stay distinct, each entry filed under its own season |
| Champions.SetChampionWellKeyed | src/App.tsx:294-334 | `championMap.set` keeps the keys distinct, each entry filed under its own season |
| Champions.VisitWellKeyed | src/App.tsx:302-338 | visiting one league context keeps the champion map well keyed |
| Champions.PassKeepsChampions | src/App.tsx:325 | a season's champion, once set, is never replaced |
| Champions.ChampionListContents | src/App.tsx:341 | the champion list holds exactly the map's entries |
| Champions.ManualChampionsKept | src/App.tsx:297-343 | every manual champion is in the final list and is the only champion of its season |
| Champions.ManualChampionInMap | src/App.tsx:297-338 | after the pass every manual season maps to its manual champion and score, never replaced by an inferred one |
| Champions.OnlyEntryOfSeason | src/App.tsx:341 | `Array.from(championMap.values())` lists a season's entry and no other record of that season |
| Champions.PassSnoc | src/App.tsx:302 | the pass visits the contexts one after another |
| Champions.PassOnlyEligible | src/App.tsx:303 | contexts without a season, and the current league, change nothing |
| Champions.CurrentLeagueIgnored | src/App.tsx:303 | the honours are the same with the current league removed |
| Champions.FilterTwice | src/App.tsx:303 | dropping the current league, then keeping eligible contexts, is keeping eligible contexts |
| Champions.BestRecordsFromEligible | src/App.tsx:302-322 | every best record comes from an eligible prior season |
| Champions.BestRecordIsBest | src/App.tsx:306-321 | a best record names the owner of a roster with the most wins, and the most points among those; its record is that roster's wins and losses |
| Champions.NoRostersNoBestRecord | src/App.tsx:312-313 | a season without rosters has no best record |
| Champions.BestRecordOfTop | src/App.tsx:306-321 | conversely, an owned roster that beats every other roster, with its owner among the members, gives the best record: that owner's name and the roster's wins and losses |
| Champions.BestRecordsListed | src/App.tsx:302-322 | every eligible context that has a best record has it listed by the pass |
| Champions.TopScorerFirst | src/App.tsx:328 | the first row after sorting the final scores at least as much as every row |
| Champions.FinalWinnerTopScores | src/App.tsx:326-328 | the inferred winner is a row of that league's week-17 final and scores at least as much as every final row |
| Champions.FinalWinnerExists | src/App.tsx:326-328 | conversely, a fetched week 17 whose final has a row always yields a winner |
| Champions.InferChampion | src/App.tsx:325-336 | no final, no champion; an inferred champion carries the context's season and the final's mark (the score, or N/A for zero or missing points) |
| Champions.InferChampionOfFirst | src/App.tsx:330-334 | when the first roster with the winner's id is owned and the first member with that owner's id is found, that member is the champion |
| Champions.InferChampionNoRoster | src/App.tsx:330-333 | no roster with the winner's id, no champion |
| Champions.InferChampionNoOwner | src/App.tsx:330-333 | the first roster with the winner's id unowned, or its owner not a member, no champion |
| Champions.VisitRecordsInferred | src/App.tsx:325-336 | an eligible context whose season has no champion yet records the inferred champion under that season |
| Champions.HonoursSorted | src/App.tsx:341-343 | both lists are ordered latest season first and are permutations of what the pass collected |
| PowerScores.RosterOfOwner | src/App.tsx:355-356 | the roster found is owned by the member and no later roster is (later rosters overwrite `byOwner`); none found means the member owns none |
| PowerScores.IndexByOwner | src/App.tsx:355-356 | the `byOwner` index built in the loop gives, for every member, the last roster they own |
| PowerScores.MaxPF | src/App.tsx:366 | maxPF is at least 1, at least every roster's points (1 when missing), and is 1 or one of them |
| PowerScores.WinPct | src/App.tsx:368 | 50 without games, else wins/(wins+losses)·100; always within 0..100 |
| PowerScores.GamesPlayed | src/App.tsx:362 | games is max(1, wins + losses) |
| PowerScores.AvgPerWeek | src/App.tsx:370 | avgPerWeek times the games played is pointsFor; without games it is pointsFor |
| PowerScores.PfPct | src/App.tsx:367 | pfPct · maxPF = pointsFor · 100; within 0..100 when 0 <= pointsFor <= maxPF, and 100 at the maximum |
| PowerScores.Blend | src/App.tsx:369 | the score stays within 0..100 when both percentages do, and is 100 exactly when both are |
| PowerScores.BlendMonotone | src/App.tsx:369 | raising pfPct or winPct never lowers the score |
| PowerScores.BlendWeights | src/App.tsx:369 | a change d in pfPct moves the score by 0.7 · d, one in winPct by 0.3 · d, and both at 0 score 0 |
| PowerScores.PowerScoresShape | src/App.tsx:352-378 | empty when members or rosters are absent; otherwise one row per member, a permutation of the rows, sorted by score highest first, ties in member order |
| PowerScores.SortedByScore | src/App.tsx:378 | sorting by `b.score - a.score` puts higher scores first and keeps member order among equal scores |
| PowerScores.EntryWithoutRoster | src/App.tsx:359-376 | a member without a roster gets zero counters and score 15 (0.3 of the 50 win percentage) |
| PowerScores.EntryWithRoster | src/App.tsx:359-370 | a member's row carries their roster's counters, and avgPerWeek is AvgPerWeek of the roster's points and record |
| PowerScores.EntryDivision | src/App.tsx:372-374 | the conference is the manual one if listed, else the demo one if listed, else the draw |
| PowerScores.ManualOwnersNeverDrawn | src/App.tsx:372-374 | a listed owner's row does not depend on the draw |
| PowerScores.ScoreInRange | src/App.tsx:366-369 | with no negative points the score is within 0..100 |
| PowerScores.TopUnbeatenScoresHundred | src/App.tsx:366-369 | the top scorer, unbeaten with at least one win, scores 100 |
| Standings.ComparatorOrder | src/App.tsx:548-558 | every column's comparator is a strict weak order |
| Standings.Reversed | src/App.tsx:566 | `reverse()`: the same rows in the opposite order |
| Standings.ReversedConcat | src/App.tsx:566 | reversing a concatenation reverses and swaps its parts |
| Standings.FilterReversed | src/App.tsx:566-570 | filtering a reversed list is reversing the filtered list |
| Standings.MultisetReversed | src/App.tsx:566 | reversing keeps the same rows |
| Standings.ReversedDescending | src/App.tsx:566 | reversing an ascending list gives a descending one |
| Standings.ClickSort | src/App.tsx:560-563 | clicking a column selects it; clicking the current column flips the direction; a new column starts ascending exactly when it is Team |
| Standings.ClickTwiceRestores | src/App.tsx:560-563 | clicking the current column twice restores the view |
| Standings.AscendingDivision | src/App.tsx:565-570 | a conference's rows after the sort are that conference's rows, in ascending column order |
| Standings.DivisionTableIsFiltered | src/App.tsx:565-570 | a conference table is the sorted rows filtered, reversed when descending |
| Standings.DivisionTableContents | src/App.tsx:565-570 | a conference table holds exactly that conference's rows |
| Standings.DivisionTableOrder | src/App.tsx:565-570 | a conference table is in ascending column order, or descending when the direction is descending |
| Standings.DefaultRankOrder | src/App.tsx:547-551 | the default table orders by wins - losses, then points-for, both highest first |
| Standings.SeedsAreDefaultTopThree | src/App.tsx:636-638 | a conference's seeds are the first three rows of its default standings table |
| Standings.SeedsTopOf | src/App.tsx:636-638 | at most three seeds, in rank order, from the conference, none ranked below a non-seed |
| Standings.SeedsFromDivision | src/App.tsx:637 | only teams of the conference are seeded |
| Standings.TeamsOfDivision | src/App.tsx:637 | the conference filter keeps only teams of that conference |
| Standings.RankComparator | src/App.tsx:629-633 | the playoff comparator orders by wins - losses, then points-for |
| Standings.SeedsRankFirst | src/App.tsx:630-638 | seeds follow wins - losses, then points-for, and no unseeded team outranks a seed |
| Ledger.AddCredits | src/App.tsx:1081-1082 | one credit per added player, each of them an add |
| Ledger.AddCreditsCount | src/App.tsx:1081-1082 | a claim gives each owner as many adds as the added players whose roster they own |
| Ledger.TradeCredits | src/App.tsx:1084-1085 | one credit per roster in the trade, each of them a trade |
| Ledger.TradeCreditsCount | src/App.tsx:1084-1085 | a trade gives each owner as many trades as the trading rosters they own |
| Ledger.TxnCredits | src/App.tsx:1077-1086 | a transaction outside the window or not complete credits nothing; a claim credits one add per added player, to that player's roster's owner; a trade one trade per roster, to its owner; any other type nothing |
| Ledger.TxnCreditsCount | src/App.tsx:1077-1086 | one transaction gives each owner as many adds as the added players whose roster they own (claims) or trades as the trading rosters they own (trades), and nothing otherwise |
| Ledger.RowsOf | src/App.tsx:1089 | row i belongs to the i-th owner in first-credit order, carries that owner's adds and trades, and total = adds + trades |
| Ledger.ApplyAllConcat | src/App.tsx:1076-1087 | crediting two runs of credits is crediting one after the other |
| Ledger.Bump | src/App.tsx:1074 | `ensure(name).adds += 1` (or trades): the ledger after one credit |
| Ledger.CreditRosters | src/App.tsx:1082-1085 | the inner loop credits each roster's owner in turn |
| Ledger.Sync | src/App.tsx:1073-1090 | the loop over the transactions, then the sort, produces the ledger rows |
| Ledger.ApplyAllCounts | src/App.tsx:1073-1087 | each owner's adds and trades are the number of their add and trade credits; only credited owners appear, and each credited owner does |
| Ledger.ApplyCounts | src/App.tsx:1074 | one `ensure(name)` increment adds one to that owner's matching counter, adding the owner when new |
| Ledger.ApplyAllGet | src/App.tsx:1076-1087 | each owner's counters are the number of their add and trade credits |
| Ledger.ApplyAllKeys | src/App.tsx:1074-1087 | only credited owners are in the ledger |
| Ledger.ApplyAllCovers | src/App.tsx:1074-1087 | every credited owner is in the ledger |
| Ledger.RowBeforeOrder | src/App.tsx:1090 | the four-key comparator is a strict weak order |
| Ledger.RowBeforeTotal | src/App.tsx:1090 | rows of two different owners are always ordered one way or the other |
| Ledger.RowsOfWellKeyed | src/App.tsx:1089 | the rows are distinct, one per owner in the ledger |
| Ledger.LedgerRowCounts | src/App.tsx:1073-1089 | every row's adds and trades count that owner's credits, total = adds + trades, and total > 0 |
| Ledger.LedgerCoversCredited | src/App.tsx:1076-1089 | every credited owner has a row |
| Ledger.SortedRowsStrict | src/App.tsx:1090 | rows of distinct owners sort into a strict order |
| Ledger.LedgerStrictOrder | src/App.tsx:1089-1090 | the ledger lists each owner once, by total, adds and trades descending, then name ascending |
| Ledger.OnlyCountedMatter | src/App.tsx:1077-1078 | only complete transactions inside the window contribute |
| News.LeadingSpace | src/App.tsx:871 | the whitespace run at the start of the text |
| News.TrailingSpace | src/App.tsx:871 | the whitespace run at the end of the text |
| News.TrimShape | src/App.tsx:871-872 | `trim()` keeps a contiguous part of the text, drops only whitespace, and leaves none at either end |
| News.BlankIffAllSpace | src/App.tsx:871 | a draft is blank exactly when it is whitespace only |
| News.TrimIdempotent | src/App.tsx:872 | trimming twice is trimming once |
| News.AddNews | src/App.tsx:870-875 | a blank draft changes nothing; otherwise the trimmed draft is prepended as an unarchived item and the box is emptied |
| News.Archive | src/App.tsx:876-878 | same length; the items with the id are flagged archived, the others unchanged |
| News.AddNewsShowsItem | src/App.tsx:870-891 | posting adds one visible item at the top and leaves the archived count unchanged |
| News.ArchiveOnlyFlags | src/App.tsx:876-878 | archiving changes only the flag, sets it exactly for the id, and is idempotent |
| News.VisiblePlusArchived | src/App.tsx:890-891 | the archived count is the number of archived items and lies within 0..length, so visible + archived = length |
| News.ClearArchiveKeepsVisible | src/App.tsx:879-882 | a confirmed clear keeps exactly the unarchived items, in order |
| News.ClearArchiveNeedsConfirmation | src/App.tsx:880 | an unconfirmed clear changes nothing |
| News.ArchiveThenClear | src/App.tsx:876-882 | archiving an id and then clearing removes every item with that id |

## Left out

- Network access (`safeJson`, `fetch`), polling timers, cancellation and React state are left out. Fetched data enters as parameters; a response that is not an array is an empty list or `None`.
- Rendering, the countdowns, number and date formatting, and the auto-summary text are left out.
- `localStorage` persistence of the news and the admin password check are left out.
- Points are Dafny `real`, not IEEE doubles, so rounding and NaN are not modelled.
- Team names are a base name plus an optional season. The `" (season)"` suffix and the `split(' (')` that strips it are not modelled, so a display name that itself contains `" ("` is not covered.
- Matchup grouping keys are the matchup id, or a per-roster key when the id is missing. The `-week*1000 + roster_id` arithmetic and the `parseInt(leagueId.slice(-4))` offset are not modelled, so collisions between those numbers are not covered.
- `localeCompare` is modelled as lexicographic order on code units. Locale collation is not modelled.
- Dates are integers. Parsing the `fromDate`/`toDate` text and `new Date(ts)` is not modelled; the window is given as inclusive integer bounds.
- Seasons are integers (`Option<int>`). The source's mix of string and number seasons, and the `Map` key comparisons that depend on it, are not modelled.
- `Math.random()` is a parameter. The division fallback reads a `draw` function indexed by member position. The random demo rosters are not modelled.
- The per-league name-resolver cache takes the season of the league's first fetched week. The model uses each week's own season; within one league these are the same.
- The `weeklyRows` list is built but never read by the engine, so it is not modelled.
- The values of a transaction's `adds` object are taken as a list of roster ids in the order `Object.values` gives them.
- Owner names that collide with `Object.prototype` members (`MANUAL_DIVISIONS["constructor"]`) are not modelled.
- The error path of the ledger sync (a thrown fetch yields no rows) is not modelled.
- AddNews: the source reads `Date.now()` twice, once for the id and once for the date; the model takes one `now` for both, so two readings a millisecond apart are not covered.
- PowerScores.Entry: the score is stated through its bounds and extremes (ScoreInRange, EntryWithoutRoster, TopUnbeatenScoresHundred), not as one closed formula in a lemma.

## Findings

| source | as written | input that shows it | evidently intended | confidence | as-written member | corrected member |
|---|---|---|---|---|---|---|
| src/App.tsx:742-746 | both sides read the map before either is written. When both sides of a team's first game in a season fall under one key, two fresh records are made and the second `set` overwrites the first. | one game in 2024 between two teams both named "Sam", 100 to 90: the total records 90 points and 1 game | every game adds both sides' points and one game per side, so the total records 190 points and 2 games | not executed; low, as it needs both sides of one game to carry the same owner name | LeagueRecords.AsWrittenLosesSideA | LeagueRecords.SeasonTotalsSums |
