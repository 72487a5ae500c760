/** Past seasons' league champions and best regular-season records. Manual
    champion entries come first and are never replaced; for every other prior
    season the champion is read off the final (week 17, matchup 1) and the
    best record is the roster with the most wins, then the most points. The
    current league contributes nothing. Both lists end up sorted by season,
    latest first. */
module Champions {
  import opened Base
  import opened Sleeper
  import StableSort

  /** What the `record` column shows. */
  datatype Mark =
    | ManualScore(text: string)      // a manual champion's recorded score
    | WinLoss(wins: nat, losses: nat) // `${wins}-${losses}`
    | FinalScore(points: real)       // the inferred champion's final score
    | NotAvailable                   // "N/A"

  datatype PastRecord = PastRecord(season: int, team: string, record: Mark)

  /** The manual champions, in the order `Object.entries` lists them. */
  const ManualChampions: seq<(int, string)> := [(2023, "JeffPeterson20"), (2024, "twillie391")]

  const ManualChampionScores: map<int, string> := map[2023 := "205.38", 2024 := "214.03"]

  /** `MANUAL_CHAMPION_SCORES[season] || "N/A"` */
  function ManualMark(season: int): Mark
  {
    if season in ManualChampionScores && ManualChampionScores[season] != "" then ManualScore(ManualChampionScores[season])
    else NotAvailable
  }

  /** `championMap` together with the insertion order of its keys. */
  datatype ChampionMap = ChampionMap(entries: map<int, PastRecord>, order: seq<int>)

  function SetChampion(m: ChampionMap, rec: PastRecord): ChampionMap
  {
    ChampionMap(m.entries[rec.season := rec], if rec.season in m.entries then m.order else m.order + [rec.season])
  }

  /** The champion map after the manual entries `ms`, in order. */
  function ManualMap(ms: seq<(int, string)>): ChampionMap
  {
    if ms == [] then ChampionMap(map[], [])
    else
      var (season, team) := ms[|ms| - 1];
      SetChampion(ManualMap(ms[..|ms| - 1]), PastRecord(season, team, ManualMark(season)))
  }

  /** The best-record comparator: more wins first, then more points. */
  predicate BetterRecord(a: Roster, b: Roster)
  {
    Wins(a) > Wins(b) || (Wins(a) == Wins(b) && Fpts(a) > Fpts(b))
  }

  lemma BetterRecordOrder()
    ensures StableSort.StrictWeakOrder(BetterRecord)
  {
  }

  /** A prior season's context: a truthy season, and not the current league. */
  predicate Eligible(ctx: LeagueContext, currentLeagueId: string)
  {
    ctx.season.Some? && ctx.season.value != 0 && ctx.leagueId != currentLeagueId
  }

  /** The best regular-season record of a context, when its best roster has an
      owner who is among the league's members. */
  function BestRecordOf(ctx: LeagueContext): Option<PastRecord>
    requires ctx.season.Some?
  {
    var sorted := StableSort.SortBy(ctx.rosters, BetterRecord);
    if sorted == [] || !HasOwner(sorted[0]) then None
    else
      var best := sorted[0];
      match FindMember(ctx.users, best.ownerId.value)
      case None => None
      case Some(u) => Some(PastRecord(ctx.season.value, u.displayName, WinLoss(Wins(best), Losses(best))))
  }

  /** No week before position `i` is week `week` of league `leagueId`. */
  predicate NoWeekBefore(weeks: seq<WeekMatchups>, i: int, leagueId: string, week: int)
  {
    forall j :: 0 <= j < i && j < |weeks| ==> !(weeks[j].leagueId == leagueId && weeks[j].week == week)
  }

  /** `weeksData.find(w => w.leagueId === leagueId && w.week === week)`: the first match. */
  function FindWeek(weeks: seq<WeekMatchups>, leagueId: string, week: int): (r: Option<WeekMatchups>)
    ensures r.Some? ==> r.value.leagueId == leagueId && r.value.week == week
    ensures r.Some? ==> exists i :: 0 <= i < |weeks| && weeks[i] == r.value && NoWeekBefore(weeks, i, leagueId, week)
    ensures r.None? ==> forall w :: w in weeks ==> !(w.leagueId == leagueId && w.week == week)
  {
    if weeks == [] then None
    else if weeks[0].leagueId == leagueId && weeks[0].week == week then Some(weeks[0])
    else FindWeek(weeks[1..], leagueId, week)
  }

  const FinalWeek: int := 17
  const FinalMatchup: int := 1

  predicate InFinal(m: MatchupRow)
  {
    m.matchupId == Some(FinalMatchup)
  }

  /** The bucket comparator: higher points first. */
  predicate ScoredMore(a: MatchupRow, b: MatchupRow)
  {
    Points(a) > Points(b)
  }

  /** The top scorer of the final of the league's week 17, if that week was
      fetched and has a final. */
  function FinalWinner(weeks: seq<WeekMatchups>, leagueId: string): Option<MatchupRow>
  {
    match FindWeek(weeks, leagueId, FinalWeek)
    case None => None
    case Some(w) =>
      var sorted := StableSort.SortBy(Filter(w.matchups, InFinal), ScoredMore);
      if sorted == [] then None else Some(sorted[0])
  }

  /** `champ.points ? fmt.format(champ.points) : "N/A"`: zero or missing points show as N/A. */
  function FinalMark(champ: MatchupRow): Mark
  {
    if champ.points.Some? && champ.points.value != 0.0 then FinalScore(champ.points.value) else NotAvailable
  }

  /** The champion inferred for a context: the owner of the final's winning roster. */
  function InferChampion(ctx: LeagueContext, weeks: seq<WeekMatchups>): (r: Option<PastRecord>)
    requires ctx.season.Some?
    ensures FinalWinner(weeks, ctx.leagueId).None? ==> r.None?
    ensures r.Some? ==> r.value.season == ctx.season.value && r.value.record == FinalMark(FinalWinner(weeks, ctx.leagueId).value)
  {
    match FinalWinner(weeks, ctx.leagueId)
    case None => None
    case Some(champ) =>
      var roster := FindRoster(ctx.rosters, champ.rosterId);
      var user := if roster.Some? && HasOwner(roster.value) then FindMember(ctx.users, roster.value.ownerId.value) else None;
      if user.None? then None
      else
        Some(PastRecord(ctx.season.value, user.value.displayName, FinalMark(champ)))
  }

  /** What the pass over the contexts has built so far. */
  datatype History = History(best: seq<PastRecord>, champions: ChampionMap)

  /** One context of the pass. */
  function Visit(h: History, ctx: LeagueContext, weeks: seq<WeekMatchups>, currentLeagueId: string): History
  {
    if !Eligible(ctx, currentLeagueId) then h
    else
      var best := match BestRecordOf(ctx) case Some(r) => h.best + [r] case None => h.best;
      var champions :=
        if ctx.season.value in h.champions.entries then h.champions
        else match InferChampion(ctx, weeks) case Some(r) => SetChampion(h.champions, r) case None => h.champions;
      History(best, champions)
  }

  /** The pass over `contexts`, starting from the manual champions. */
  function Pass(contexts: seq<LeagueContext>, weeks: seq<WeekMatchups>, currentLeagueId: string): History
  {
    if contexts == [] then History([], ManualMap(ManualChampions))
    else Visit(Pass(contexts[..|contexts| - 1], weeks, currentLeagueId), contexts[|contexts| - 1], weeks, currentLeagueId)
  }

  /** `Array.from(championMap.values())` */
  function ChampionList(m: ChampionMap): (rs: seq<PastRecord>)
    ensures |rs| == |m.order|
    decreases |m.order|
  {
    if m.order == [] then []
    else
      var k := m.order[|m.order| - 1];
      ChampionList(ChampionMap(m.entries, m.order[..|m.order| - 1]))
        + [if k in m.entries then m.entries[k] else PastRecord(k, "", NotAvailable)]
  }

  /** `(a, b) => Number(b.season) - Number(a.season)`: later seasons first. */
  predicate LaterSeason(a: PastRecord, b: PastRecord)
  {
    a.season > b.season
  }

  /** The two lists the memo returns. */
  datatype Honours = Honours(bestRegularSeasonRecords: seq<PastRecord>, leagueChampions: seq<PastRecord>)

  function HonoursOf(contexts: seq<LeagueContext>, weeks: seq<WeekMatchups>, currentLeagueId: string): Honours
  {
    var h := Pass(contexts, weeks, currentLeagueId);
    Honours(StableSort.SortBy(h.best, LaterSeason), StableSort.SortBy(ChampionList(h.champions), LaterSeason))
  }

  /** The champion and best-record part of the derivation memo. */
  method ComputeHonours(contexts: seq<LeagueContext>, weeks: seq<WeekMatchups>, currentLeagueId: string)
    returns (honours: Honours)
    ensures honours == HonoursOf(contexts, weeks, currentLeagueId)
  {
    var best: seq<PastRecord> := [];
    var entries: map<int, PastRecord> := map[];
    var order: seq<int> := [];
    for i := 0 to |ManualChampions|
      invariant ChampionMap(entries, order) == ManualMap(ManualChampions[..i])
    {
      assert ManualChampions[..i + 1][..i] == ManualChampions[..i];
      var (season, team) := ManualChampions[i];
      var score := if season in ManualChampionScores && ManualChampionScores[season] != ""
                   then ManualScore(ManualChampionScores[season]) else NotAvailable;
      if season !in entries {
        order := order + [season];
      }
      entries := entries[season := PastRecord(season, team, score)];
    }
    assert ManualChampions[..|ManualChampions|] == ManualChampions;
    for i := 0 to |contexts|
      invariant History(best, ChampionMap(entries, order)) == Pass(contexts[..i], weeks, currentLeagueId)
    {
      assert contexts[..i + 1][..i] == contexts[..i];
      var ctx := contexts[i];
      if ctx.season.None? || ctx.season.value == 0 || ctx.leagueId == currentLeagueId {
        continue;
      }
      var bestRecord := BestRecordOf(ctx);
      if bestRecord.Some? {
        best := best + [bestRecord.value];
      }
      if ctx.season.value !in entries {
        var champion := InferChampion(ctx, weeks);
        if champion.Some? {
          if champion.value.season !in entries {
            order := order + [champion.value.season];
          }
          entries := entries[champion.value.season := champion.value];
        }
      }
    }
    assert contexts[..|contexts|] == contexts;
    honours := Honours(StableSort.SortBy(best, LaterSeason), StableSort.SortBy(ChampionList(ChampionMap(entries, order)), LaterSeason));
  }

  /** The map's keys are its insertion order, each once, and every entry sits
      under its own season. */
  ghost predicate WellKeyed(m: ChampionMap)
  {
    && (forall k :: k in m.entries <==> k in m.order)
    && (forall i, j :: 0 <= i < j < |m.order| ==> m.order[i] != m.order[j])
    && (forall k :: k in m.entries ==> m.entries[k].season == k)
  }

  /** The manual champions as the pass starts from them. */
  lemma ManualMapContents()
    ensures ManualMap(ManualChampions)
         == ChampionMap(map[2023 := PastRecord(2023, "JeffPeterson20", ManualScore("205.38")),
                            2024 := PastRecord(2024, "twillie391", ManualScore("214.03"))],
                        [2023, 2024])
  {
    assert ManualChampions[..1] == [(2023, "JeffPeterson20")];
    assert ManualChampions[..1][..0] == [];
  }

  lemma {:induction false} PassWellKeyed(contexts: seq<LeagueContext>, weeks: seq<WeekMatchups>, currentLeagueId: string)
    ensures WellKeyed(Pass(contexts, weeks, currentLeagueId).champions)
  {
    if contexts == [] {
      ManualMapContents();
    } else {
      var init := contexts[..|contexts| - 1];
      PassWellKeyed(init, weeks, currentLeagueId);
      VisitWellKeyed(Pass(init, weeks, currentLeagueId), contexts[|contexts| - 1], weeks, currentLeagueId);
    }
  }

  /** Recording a champion keeps the map well keyed. */
  lemma SetChampionWellKeyed(m: ChampionMap, rec: PastRecord)
    requires WellKeyed(m)
    ensures WellKeyed(SetChampion(m, rec))
  {
  }

  /** Visiting one context keeps the champion map well keyed. */
  lemma VisitWellKeyed(h: History, ctx: LeagueContext, weeks: seq<WeekMatchups>, currentLeagueId: string)
    requires WellKeyed(h.champions)
    ensures WellKeyed(Visit(h, ctx, weeks, currentLeagueId).champions)
  {
    if Eligible(ctx, currentLeagueId) && ctx.season.value !in h.champions.entries {
      var r := InferChampion(ctx, weeks);
      if r.Some? {
        SetChampionWellKeyed(h.champions, r.value);
      }
    }
  }

  /** Once a season has a champion, the pass never changes it. */
  lemma {:induction false} PassKeepsChampions(contexts: seq<LeagueContext>, n: nat, weeks: seq<WeekMatchups>, currentLeagueId: string, season: int)
    requires n <= |contexts|
    requires season in Pass(contexts[..n], weeks, currentLeagueId).champions.entries
    ensures season in Pass(contexts, weeks, currentLeagueId).champions.entries
    ensures Pass(contexts, weeks, currentLeagueId).champions.entries[season]
         == Pass(contexts[..n], weeks, currentLeagueId).champions.entries[season]
  {
    if n < |contexts| {
      var init := contexts[..|contexts| - 1];
      assert init[..n] == contexts[..n];
      PassKeepsChampions(init, n, weeks, currentLeagueId, season);
      PassWellKeyed(init, weeks, currentLeagueId);
    } else {
      assert contexts[..n] == contexts;
    }
  }

  /** Every entry of a well-keyed map is listed, and the list holds nothing else. */
  lemma {:induction false} ChampionListContents(m: ChampionMap)
    requires forall k :: k in m.order ==> k in m.entries
    ensures forall k :: k in m.order ==> m.entries[k] in ChampionList(m)
    ensures forall r :: r in ChampionList(m) ==> exists k :: k in m.order && r == m.entries[k]
    decreases |m.order|
  {
    if m.order != [] {
      var init := ChampionMap(m.entries, m.order[..|m.order| - 1]);
      ChampionListContents(init);
      assert m.order == init.order + [m.order[|m.order| - 1]];
    }
  }

  /** The manual champions are always listed, under their recorded scores, and
      no other champion is listed for their seasons. */
  lemma ManualChampionsKept(contexts: seq<LeagueContext>, weeks: seq<WeekMatchups>, currentLeagueId: string)
    ensures var champions := HonoursOf(contexts, weeks, currentLeagueId).leagueChampions;
      forall i :: 0 <= i < |ManualChampions| ==>
        var (season, team) := ManualChampions[i];
        && PastRecord(season, team, ManualMark(season)) in champions
        && forall r :: r in champions && r.season == season ==> r == PastRecord(season, team, ManualMark(season))
  {
    var m := Pass(contexts, weeks, currentLeagueId).champions;
    var list := ChampionList(m);
    var sorted := StableSort.SortBy(list, LaterSeason);
    PassWellKeyed(contexts, weeks, currentLeagueId);
    forall i | 0 <= i < |ManualChampions|
      ensures var (season, team) := ManualChampions[i];
        && PastRecord(season, team, ManualMark(season)) in sorted
        && forall r :: r in sorted && r.season == season ==> r == PastRecord(season, team, ManualMark(season))
    {
      var (season, team) := ManualChampions[i];
      var rec := PastRecord(season, team, ManualMark(season));
      ManualChampionInMap(contexts, weeks, currentLeagueId, i);
      OnlyEntryOfSeason(m, season);
      assert rec in multiset(sorted);
      forall r | r in sorted && r.season == season ensures r == rec {
        assert r in multiset(list);
      }
    }
  }

  /** A manual champion's entry is in the final champion map. */
  lemma ManualChampionInMap(contexts: seq<LeagueContext>, weeks: seq<WeekMatchups>, currentLeagueId: string, i: nat)
    requires i < |ManualChampions|
    ensures var (season, team) := ManualChampions[i];
      var m := Pass(contexts, weeks, currentLeagueId).champions;
      season in m.entries && m.entries[season] == PastRecord(season, team, ManualMark(season))
  {
    ManualMapContents();
    assert contexts[..0] == [];
    PassKeepsChampions(contexts, 0, weeks, currentLeagueId, ManualChampions[i].0);
  }

  /** In a well-keyed map, a season's entry is listed and is the only listed
      record of that season. */
  lemma OnlyEntryOfSeason(m: ChampionMap, season: int)
    requires WellKeyed(m) && season in m.entries
    ensures m.entries[season] in ChampionList(m)
    ensures forall r :: r in ChampionList(m) && r.season == season ==> r == m.entries[season]
  {
    ChampionListContents(m);
    forall r | r in ChampionList(m) && r.season == season ensures r == m.entries[season] {
      var k :| k in m.order && r == m.entries[k];
    }
  }

  /** The pass over a list with one more context visits that context last. */
  lemma PassSnoc(contexts: seq<LeagueContext>, ctx: LeagueContext, weeks: seq<WeekMatchups>, currentLeagueId: string)
    ensures Pass(contexts + [ctx], weeks, currentLeagueId) == Visit(Pass(contexts, weeks, currentLeagueId), ctx, weeks, currentLeagueId)
  {
    assert (contexts + [ctx])[..|contexts|] == contexts;
  }

  /** Ineligible contexts (no season, or the current league) leave the pass unchanged. */
  lemma {:induction false} PassOnlyEligible(contexts: seq<LeagueContext>, weeks: seq<WeekMatchups>, currentLeagueId: string)
    ensures Pass(contexts, weeks, currentLeagueId)
         == Pass(Filter(contexts, c => Eligible(c, currentLeagueId)), weeks, currentLeagueId)
  {
    var p := (c: LeagueContext) => Eligible(c, currentLeagueId);
    if contexts != [] {
      var init, c := contexts[..|contexts| - 1], contexts[|contexts| - 1];
      assert contexts == init + [c];
      PassOnlyEligible(init, weeks, currentLeagueId);
      FilterConcat(init, [c], p);
      PassSnoc(init, c, weeks, currentLeagueId);
      if p(c) {
        assert Filter([c], p) == [c];
        PassSnoc(Filter(init, p), c, weeks, currentLeagueId);
      } else {
        assert Filter([c], p) == [];
        assert Filter(contexts, p) == Filter(init, p);
      }
    }
  }

  /** Hence the current league contributes neither a best record nor a champion. */
  lemma CurrentLeagueIgnored(contexts: seq<LeagueContext>, weeks: seq<WeekMatchups>, currentLeagueId: string)
    ensures HonoursOf(contexts, weeks, currentLeagueId)
         == HonoursOf(Filter(contexts, (c: LeagueContext) => c.leagueId != currentLeagueId), weeks, currentLeagueId)
  {
    var others := Filter(contexts, (c: LeagueContext) => c.leagueId != currentLeagueId);
    PassOnlyEligible(contexts, weeks, currentLeagueId);
    PassOnlyEligible(others, weeks, currentLeagueId);
    FilterTwice(contexts, currentLeagueId);
  }

  lemma {:induction false} FilterTwice(contexts: seq<LeagueContext>, currentLeagueId: string)
    ensures Filter(Filter(contexts, (c: LeagueContext) => c.leagueId != currentLeagueId), c => Eligible(c, currentLeagueId))
         == Filter(contexts, c => Eligible(c, currentLeagueId))
  {
    var q := (c: LeagueContext) => c.leagueId != currentLeagueId;
    var p := (c: LeagueContext) => Eligible(c, currentLeagueId);
    if contexts != [] {
      FilterTwice(contexts[1..], currentLeagueId);
      var h := if q(contexts[0]) then [contexts[0]] else [];
      FilterConcat(h, Filter(contexts[1..], q), p);
      if q(contexts[0]) {
        assert Filter(h, p) == (if p(contexts[0]) then [contexts[0]] else []);
      }
    }
  }

  /** Every best record is that of an eligible context. */
  lemma {:induction false} BestRecordsFromEligible(contexts: seq<LeagueContext>, weeks: seq<WeekMatchups>, currentLeagueId: string)
    ensures forall r :: r in Pass(contexts, weeks, currentLeagueId).best ==>
      exists ctx :: ctx in contexts && Eligible(ctx, currentLeagueId) && BestRecordOf(ctx) == Some(r)
  {
    if contexts != [] {
      var init := contexts[..|contexts| - 1];
      BestRecordsFromEligible(init, weeks, currentLeagueId);
      forall r | r in Pass(contexts, weeks, currentLeagueId).best
        ensures exists ctx :: ctx in contexts && Eligible(ctx, currentLeagueId) && BestRecordOf(ctx) == Some(r)
      {
        if r in Pass(init, weeks, currentLeagueId).best {
          var ctx :| ctx in init && Eligible(ctx, currentLeagueId) && BestRecordOf(ctx) == Some(r);
          assert ctx in contexts;
        } else {
          assert contexts[|contexts| - 1] in contexts;
        }
      }
    }
  }

  /** The best record belongs to a roster no other roster beats on wins, or on
      points at equal wins; it shows that roster's wins and losses and its
      owner's display name. */
  lemma BestRecordIsBest(ctx: LeagueContext)
    requires ctx.season.Some?
    ensures match BestRecordOf(ctx)
      case None => true
      case Some(r) =>
        exists b :: b in ctx.rosters && HasOwner(b)
          && FindMember(ctx.users, b.ownerId.value).Some?
          && r == PastRecord(ctx.season.value, FindMember(ctx.users, b.ownerId.value).value.displayName, WinLoss(Wins(b), Losses(b)))
          && forall x :: x in ctx.rosters ==> Wins(x) < Wins(b) || (Wins(x) == Wins(b) && Fpts(x) <= Fpts(b))
  {
    var sorted := StableSort.SortBy(ctx.rosters, BetterRecord);
    if BestRecordOf(ctx).Some? {
      var b := sorted[0];
      BetterRecordOrder();
      StableSort.SortBySorted(ctx.rosters, BetterRecord);
      assert b in multiset(ctx.rosters);
      forall x | x in ctx.rosters ensures Wins(x) < Wins(b) || (Wins(x) == Wins(b) && Fpts(x) <= Fpts(b)) {
        assert x in multiset(sorted);
        var j :| 0 <= j < |sorted| && sorted[j] == x;
        if j > 0 {
          assert !BetterRecord(sorted[j], sorted[0]);
        }
      }
    }
  }

  /** A context without rosters has no best record. */
  lemma NoRostersNoBestRecord(ctx: LeagueContext)
    requires ctx.season.Some? && ctx.rosters == []
    ensures BestRecordOf(ctx) == None
  {
  }

  /** Conversely: an owned roster that beats every other roster of the context,
      whose owner is among the members, gives the context's best record. */
  lemma BestRecordOfTop(ctx: LeagueContext, b: Roster, u: Member)
    requires ctx.season.Some?
    requires b in ctx.rosters && HasOwner(b)
    requires forall x :: x in ctx.rosters && x != b ==> BetterRecord(b, x)
    requires FindMember(ctx.users, b.ownerId.value) == Some(u)
    ensures BestRecordOf(ctx) == Some(PastRecord(ctx.season.value, u.displayName, WinLoss(Wins(b), Losses(b))))
  {
    var sorted := StableSort.SortBy(ctx.rosters, BetterRecord);
    BetterRecordOrder();
    StableSort.SortBySorted(ctx.rosters, BetterRecord);
    assert b in multiset(sorted);
    var j :| 0 <= j < |sorted| && sorted[j] == b;
    assert sorted[0] in multiset(ctx.rosters);
    if j > 0 {
      assert !BetterRecord(sorted[j], sorted[0]);
    }
  }

  /** Every eligible context with a best record has it listed by the pass. */
  lemma {:induction false} BestRecordsListed(contexts: seq<LeagueContext>, weeks: seq<WeekMatchups>, currentLeagueId: string)
    ensures forall ctx :: ctx in contexts && Eligible(ctx, currentLeagueId) && BestRecordOf(ctx).Some? ==>
      BestRecordOf(ctx).value in Pass(contexts, weeks, currentLeagueId).best
  {
    if contexts != [] {
      var init, last := contexts[..|contexts| - 1], contexts[|contexts| - 1];
      BestRecordsListed(init, weeks, currentLeagueId);
      var h := Pass(init, weeks, currentLeagueId);
      assert forall r :: r in h.best ==> r in Visit(h, last, weeks, currentLeagueId).best;
      forall ctx | ctx in contexts && Eligible(ctx, currentLeagueId) && BestRecordOf(ctx).Some?
        ensures BestRecordOf(ctx).value in Pass(contexts, weeks, currentLeagueId).best
      {
        if ctx in init {
          assert BestRecordOf(ctx).value in h.best;
        } else {
          assert ctx == last;
        }
      }
    }
  }

  /** The head of the rows sorted by points scored at least as much as every row. */
  lemma TopScorerFirst(rows: seq<MatchupRow>)
    requires rows != []
    ensures var sorted := StableSort.SortBy(rows, ScoredMore);
      sorted != [] && sorted[0] in rows && forall x :: x in rows ==> Points(x) <= Points(sorted[0])
  {
    var sorted := StableSort.SortBy(rows, ScoredMore);
    assert StableSort.StrictWeakOrder(ScoredMore);
    StableSort.SortBySorted(rows, ScoredMore);
    assert sorted[0] in multiset(rows);
    forall x | x in rows ensures Points(x) <= Points(sorted[0]) {
      assert x in multiset(sorted);
      var j :| 0 <= j < |sorted| && sorted[j] == x;
      if j > 0 {
        assert !ScoredMore(sorted[j], sorted[0]);
      }
    }
  }

  /** The final's winner is a week-17 row of the league's final that scored at
      least as much as every other row of the final. */
  lemma FinalWinnerTopScores(weeks: seq<WeekMatchups>, leagueId: string)
    ensures match FinalWinner(weeks, leagueId)
      case None => true
      case Some(m) =>
        exists w :: w in weeks && w.leagueId == leagueId && w.week == FinalWeek && m in w.matchups && InFinal(m)
          && forall x :: x in w.matchups && InFinal(x) ==> Points(x) <= Points(m)
  {
    match FindWeek(weeks, leagueId, FinalWeek)
    case None =>
    case Some(w) =>
      var finals := Filter(w.matchups, InFinal);
      if finals != [] {
        TopScorerFirst(finals);
        forall x | x in w.matchups && InFinal(x) ensures x in finals {
          var k :| 0 <= k < |w.matchups| && w.matchups[k] == x;
        }
      }
  }

  /** Conversely: a fetched week 17 whose final has a row always yields a winner. */
  lemma FinalWinnerExists(weeks: seq<WeekMatchups>, leagueId: string, w: WeekMatchups, x: MatchupRow)
    requires FindWeek(weeks, leagueId, FinalWeek) == Some(w)
    requires x in w.matchups && InFinal(x)
    ensures FinalWinner(weeks, leagueId).Some?
  {
    var k :| 0 <= k < |w.matchups| && w.matchups[k] == x;
    assert x in Filter(w.matchups, InFinal);
  }

  /** Stated on the lists: when the first roster with the winner's id is owned,
      and the first member with the owner's id is `users[k]`, that member is
      the inferred champion, with the final's mark. */
  lemma InferChampionOfFirst(ctx: LeagueContext, weeks: seq<WeekMatchups>, champ: MatchupRow, i: nat, k: nat)
    requires ctx.season.Some? && FinalWinner(weeks, ctx.leagueId) == Some(champ)
    requires i < |ctx.rosters| && ctx.rosters[i].rosterId == champ.rosterId
    requires NoRosterBefore(ctx.rosters, i, champ.rosterId) && HasOwner(ctx.rosters[i])
    requires k < |ctx.users| && ctx.users[k].userId == ctx.rosters[i].ownerId.value
    requires NoMemberBefore(ctx.users, k, ctx.users[k].userId)
    ensures InferChampion(ctx, weeks) == Some(PastRecord(ctx.season.value, ctx.users[k].displayName, FinalMark(champ)))
  {
    var r := FindRoster(ctx.rosters, champ.rosterId).value;
    var i' :| 0 <= i' < |ctx.rosters| && ctx.rosters[i'] == r && NoRosterBefore(ctx.rosters, i', champ.rosterId);
    assert i' == i;
    var u := FindMember(ctx.users, r.ownerId.value).value;
    var k' :| 0 <= k' < |ctx.users| && ctx.users[k'] == u && NoMemberBefore(ctx.users, k', u.userId);
    assert k' == k;
  }

  /** No champion is inferred when no roster has the winner's id. */
  lemma InferChampionNoRoster(ctx: LeagueContext, weeks: seq<WeekMatchups>, champ: MatchupRow)
    requires ctx.season.Some? && FinalWinner(weeks, ctx.leagueId) == Some(champ)
    requires forall x :: x in ctx.rosters ==> x.rosterId != champ.rosterId
    ensures InferChampion(ctx, weeks).None?
  {
  }

  /** No champion is inferred when the first roster with the winner's id has
      no owner, or no member has that owner's id. */
  lemma InferChampionNoOwner(ctx: LeagueContext, weeks: seq<WeekMatchups>, champ: MatchupRow, i: nat)
    requires ctx.season.Some? && FinalWinner(weeks, ctx.leagueId) == Some(champ)
    requires i < |ctx.rosters| && ctx.rosters[i].rosterId == champ.rosterId && NoRosterBefore(ctx.rosters, i, champ.rosterId)
    requires !HasOwner(ctx.rosters[i]) || forall u :: u in ctx.users ==> u.userId != ctx.rosters[i].ownerId.value
    ensures InferChampion(ctx, weeks).None?
  {
    var r := FindRoster(ctx.rosters, champ.rosterId).value;
    var i' :| 0 <= i' < |ctx.rosters| && ctx.rosters[i'] == r && NoRosterBefore(ctx.rosters, i', champ.rosterId);
    assert i' == i;
  }

  /** A visit to an eligible context whose season has no champion yet records
      the inferred champion under that season. */
  lemma VisitRecordsInferred(h: History, ctx: LeagueContext, weeks: seq<WeekMatchups>, currentLeagueId: string, r: PastRecord)
    requires Eligible(ctx, currentLeagueId) && ctx.season.value !in h.champions.entries
    requires InferChampion(ctx, weeks) == Some(r)
    ensures ctx.season.value in Visit(h, ctx, weeks, currentLeagueId).champions.entries
    ensures Visit(h, ctx, weeks, currentLeagueId).champions.entries[ctx.season.value] == r
  {
  }

  /** Both lists are the pass's lists reordered, latest season first. */
  lemma HonoursSorted(contexts: seq<LeagueContext>, weeks: seq<WeekMatchups>, currentLeagueId: string)
    ensures var hs, h := HonoursOf(contexts, weeks, currentLeagueId), Pass(contexts, weeks, currentLeagueId);
      && StableSort.Sorted(hs.bestRegularSeasonRecords, LaterSeason)
      && StableSort.Sorted(hs.leagueChampions, LaterSeason)
      && multiset(hs.bestRegularSeasonRecords) == multiset(h.best)
      && multiset(hs.leagueChampions) == multiset(ChampionList(h.champions))
  {
    var h := Pass(contexts, weeks, currentLeagueId);
    assert StableSort.StrictWeakOrder(LaterSeason);
    StableSort.SortBySorted(h.best, LaterSeason);
    StableSort.SortBySorted(ChampionList(h.champions), LaterSeason);
  }
}
