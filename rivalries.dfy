/** Rivalry records: for a fixed list of name pairs, a head-to-head tally over
    every derived game between the two owners, whichever side of the game
    each owner was on. Teams are compared by base name, so a rivalry spans
    every season. */
module Rivalries {
  import opened Base
  import opened Sleeper
  import opened Games

  /** A rivalry: two owners' display names and an optional title. */
  datatype RivalryDef = RivalryDef(teamA: string, teamB: string, alias: Option<string>)

  /** The league's six rivalries. */
  const LeagueRivalries: seq<RivalryDef> := [
    RivalryDef("PAHTNAH", "JeffPeterson20", Some("The Twin Classic")),
    RivalryDef("KShrewsberry", "brandishrewsberry", Some("The Honey-Do List Classic \U{1F4DD}")),
    RivalryDef("BillsMafia1480", "Smittytribe27", Some("The Let\U{2019}s Make a Trade Classic")),
    RivalryDef("AlanCarignan", "CamWells16", Some("The Clash of Squads")),
    RivalryDef("cincy_kid", "Savro24", Some("The Prestige\U{2013}Rats Classic")),
    RivalryDef("twillie391", "BReyes", Some("The Split Second Bowl"))
  ]

  /** The running counters of one rivalry's tally. */
  datatype Tally = Tally(winsA: nat, winsB: nat, ties: nat, totalGames: nat, totalPtsA: real, totalPtsB: real)

  /** One row of the rivalry table. */
  datatype RivalryRecord = RivalryRecord(teamA: string, teamB: string, winsA: nat, winsB: nat, ties: nat,
                                         totalGames: nat, avgPtsA: real, avgPtsB: real, alias: Option<string>)

  /** The game was played between the rivalry's two owners, in either order. */
  predicate IsMatch(g: Game, r: RivalryDef)
  {
    (g.teamA.base == r.teamA && g.teamB.base == r.teamB) || (g.teamA.base == r.teamB && g.teamB.base == r.teamA)
  }

  /** The points scored in the game by the rivalry's first owner. */
  function PtsOfA(g: Game, r: RivalryDef): real
  {
    if g.teamA.base == r.teamA then g.ptsA else g.ptsB
  }

  /** The points scored in the game by the rivalry's second owner. */
  function PtsOfB(g: Game, r: RivalryDef): real
  {
    if g.teamB.base == r.teamB then g.ptsB else g.ptsA
  }

  /** One iteration of the tally loop. */
  function Step(t: Tally, g: Game, r: RivalryDef): Tally
  {
    if !IsMatch(g, r) then t
    else
      var a, b := PtsOfA(g, r), PtsOfB(g, r);
      Tally(t.winsA + (if a > b then 1 else 0),
            t.winsB + (if b > a then 1 else 0),
            t.ties + (if a == b then 1 else 0),
            t.totalGames + 1,
            t.totalPtsA + a,
            t.totalPtsB + b)
  }

  /** The tally over `games`, game by game. */
  function TallyOf(games: seq<Game>, r: RivalryDef): Tally
  {
    if games == [] then Tally(0, 0, 0, 0, 0.0, 0.0)
    else Step(TallyOf(games[..|games| - 1], r), games[|games| - 1], r)
  }

  /** The counter loop over every game for one rivalry. */
  method TallyRivalry(games: seq<Game>, r: RivalryDef) returns (t: Tally)
    ensures t == TallyOf(games, r)
  {
    var winsA, winsB, ties, totalGames := 0, 0, 0, 0;
    var totalPtsA, totalPtsB := 0.0, 0.0;
    for i := 0 to |games|
      invariant Tally(winsA, winsB, ties, totalGames, totalPtsA, totalPtsB) == TallyOf(games[..i], r)
    {
      assert games[..i + 1][..i] == games[..i];
      var game := games[i];
      var teamA, teamB := game.teamA.base, game.teamB.base;
      var isMatch := (teamA == r.teamA && teamB == r.teamB) || (teamA == r.teamB && teamB == r.teamA);
      if !isMatch {
        continue;
      }
      totalGames := totalGames + 1;
      var ptsA := if teamA == r.teamA then game.ptsA else game.ptsB;
      var ptsB := if teamB == r.teamB then game.ptsB else game.ptsA;
      totalPtsA := totalPtsA + ptsA;
      totalPtsB := totalPtsB + ptsB;
      if ptsA > ptsB {
        winsA := winsA + 1;
      } else if ptsB > ptsA {
        winsB := winsB + 1;
      } else {
        ties := ties + 1;
      }
    }
    assert games[..|games|] == games;
    t := Tally(winsA, winsB, ties, totalGames, totalPtsA, totalPtsB);
  }

  /** `totalGames ? total / totalGames : 0` */
  function Average(total: real, count: nat): (avg: real)
    ensures count == 0 ==> avg == 0.0
    ensures count > 0 ==> avg * (count as real) == total
  {
    if count == 0 then 0.0 else total / (count as real)
  }

  /** The table row of a rivalry, from its tally. */
  function RecordOf(r: RivalryDef, t: Tally): RivalryRecord
  {
    RivalryRecord(r.teamA, r.teamB, t.winsA, t.winsB, t.ties, t.totalGames,
                  Average(t.totalPtsA, t.totalGames), Average(t.totalPtsB, t.totalGames), r.alias)
  }

  /** The rows of all rivalries, in list order, before the empty ones are dropped. */
  function AllRecords(games: seq<Game>, rivalries: seq<RivalryDef>): (rs: seq<RivalryRecord>)
    ensures |rs| == |rivalries|
    ensures forall i :: 0 <= i < |rs| ==> rs[i] == RecordOf(rivalries[i], TallyOf(games, rivalries[i]))
  {
    if rivalries == [] then []
    else AllRecords(games, rivalries[..|rivalries| - 1]) + [RecordOf(rivalries[|rivalries| - 1], TallyOf(games, rivalries[|rivalries| - 1]))]
  }

  predicate Played(rec: RivalryRecord)
  {
    rec.totalGames > 0
  }

  /** The rivalry table: nothing at all without games, otherwise every rivalry
      with at least one game, in list order. */
  function RivalryTable(games: seq<Game>, rivalries: seq<RivalryDef>): seq<RivalryRecord>
  {
    if games == [] then [] else Filter(AllRecords(games, rivalries), Played)
  }

  /** The memo: the early return on an empty game list, then one tally loop per
      rivalry, then the filter. */
  method BuildRivalryTable(games: seq<Game>, rivalries: seq<RivalryDef>) returns (table: seq<RivalryRecord>)
    ensures table == RivalryTable(games, rivalries)
  {
    if |games| == 0 {
      return [];
    }
    var records := [];
    for i := 0 to |rivalries|
      invariant records == AllRecords(games, rivalries[..i])
    {
      assert rivalries[..i + 1][..i] == rivalries[..i];
      var t := TallyRivalry(games, rivalries[i]);
      records := records + [RecordOf(rivalries[i], t)];
    }
    assert rivalries[..|rivalries|] == rivalries;
    table := Filter(records, Played);
  }

  /** Every counted game is exactly one of a win for A, a win for B or a tie. */
  lemma {:induction false} TallyBalanced(games: seq<Game>, r: RivalryDef)
    ensures var t := TallyOf(games, r); t.winsA + t.winsB + t.ties == t.totalGames
  {
    if games != [] {
      TallyBalanced(games[..|games| - 1], r);
    }
  }

  /** The game count is the number of games between the two owners. */
  lemma {:induction false} TallyCountsMatches(games: seq<Game>, r: RivalryDef)
    ensures TallyOf(games, r).totalGames == |Filter(games, g => IsMatch(g, r))|
  {
    if games != [] {
      var init, g := games[..|games| - 1], games[|games| - 1];
      assert games == init + [g];
      TallyCountsMatches(init, r);
      FilterConcat(init, [g], x => IsMatch(x, r));
    }
  }

  /** The same game with its sides exchanged. */
  function Swapped(g: Game): Game
  {
    g.(teamA := g.teamB, teamB := g.teamA, ptsA := g.ptsB, ptsB := g.ptsA)
  }

  /** Which side of the game an owner was listed on does not matter, as long as
      the rivalry is between two different owners. */
  lemma StepSwapped(t: Tally, g: Game, r: RivalryDef)
    requires r.teamA != r.teamB
    ensures Step(t, Swapped(g), r) == Step(t, g, r)
  {
  }

  /** Two game lists that agree up to the order of each game's sides give the same tally. */
  lemma {:induction false} TallyIgnoresSides(games: seq<Game>, others: seq<Game>, r: RivalryDef)
    requires r.teamA != r.teamB
    requires |games| == |others|
    requires forall i :: 0 <= i < |games| ==> others[i] == games[i] || others[i] == Swapped(games[i])
    ensures TallyOf(others, r) == TallyOf(games, r)
  {
    if games != [] {
      var n := |games| - 1;
      TallyIgnoresSides(games[..n], others[..n], r);
      if others[n] != games[n] {
        StepSwapped(TallyOf(games[..n], r), games[n], r);
      }
    }
  }

  /** The tally with its two owners in the other order. */
  function Mirrored(t: Tally): Tally
  {
    Tally(t.winsB, t.winsA, t.ties, t.totalGames, t.totalPtsB, t.totalPtsA)
  }

  /** Listing a rivalry's owners the other way round mirrors its tally. */
  lemma {:induction false} TallyMirrored(games: seq<Game>, r: RivalryDef)
    requires r.teamA != r.teamB
    ensures TallyOf(games, RivalryDef(r.teamB, r.teamA, r.alias)) == Mirrored(TallyOf(games, r))
  {
    if games != [] {
      TallyMirrored(games[..|games| - 1], r);
    }
  }

  /** The table lists exactly the rivalries with at least one game, in list
      order; each row's averages are its owner's points per game. */
  lemma RivalryTableRows(games: seq<Game>, rivalries: seq<RivalryDef>)
    ensures var table := RivalryTable(games, rivalries);
      && (forall rec :: rec in table ==> rec.totalGames > 0 && rec.winsA + rec.winsB + rec.ties == rec.totalGames)
      && (forall i :: 0 <= i < |rivalries| && games != [] && TallyOf(games, rivalries[i]).totalGames > 0 ==>
            RecordOf(rivalries[i], TallyOf(games, rivalries[i])) in table)
      && (forall rec :: rec in table ==>
            exists r :: r in rivalries && rec == RecordOf(r, TallyOf(games, r)))
  {
    var all := AllRecords(games, rivalries);
    if games != [] {
      forall rec | rec in RivalryTable(games, rivalries)
        ensures rec.winsA + rec.winsB + rec.ties == rec.totalGames
        ensures exists r :: r in rivalries && rec == RecordOf(r, TallyOf(games, r))
      {
        var i :| 0 <= i < |all| && all[i] == rec;
        TallyBalanced(games, rivalries[i]);
      }
      forall i | 0 <= i < |rivalries| && TallyOf(games, rivalries[i]).totalGames > 0
        ensures RecordOf(rivalries[i], TallyOf(games, rivalries[i])) in RivalryTable(games, rivalries)
      {
        assert Played(all[i]);
      }
    }
  }
}
