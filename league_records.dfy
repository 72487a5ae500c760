/** League records over every derived game: per-(season, owner) point totals
    with the five highest and five lowest, the five widest margins and the
    five highest combined scores. Totals are kept in a `Map` keyed by season
    and owner name whose iteration order is the order of first insertion. */
module LeagueRecords {
  import opened Base
  import opened Sleeper
  import opened Games
  import StableSort

  /** The key `${season ?? 'unknown'}::${name}`: one season of one owner. */
  datatype SeasonKey = SeasonKey(season: Option<int>, team: string)

  /** A season total: points scored and games played by one owner in one season. */
  datatype SeasonTotal = SeasonTotal(team: string, season: Option<int>, pts: real, games: nat)

  /** `seasonTotalsMap` together with the order in which its keys were inserted. */
  datatype Totals = Totals(entries: map<SeasonKey, SeasonTotal>, order: seq<SeasonKey>)

  function KeyA(g: Game): SeasonKey
  {
    SeasonKey(g.season, g.teamA.base)
  }

  function KeyB(g: Game): SeasonKey
  {
    SeasonKey(g.season, g.teamB.base)
  }

  /** The map's keys are exactly the recorded order, each key once. */
  ghost predicate ValidTotals(t: Totals)
  {
    && (forall k :: k in t.entries <==> k in t.order)
    && (forall i, j :: 0 <= i < j < |t.order| ==> t.order[i] != t.order[j])
  }

  /** `map.get(key) || { team, season, pts: 0, games: 0 }` */
  function Lookup(entries: map<SeasonKey, SeasonTotal>, k: SeasonKey): SeasonTotal
  {
    if k in entries then entries[k] else SeasonTotal(k.team, k.season, 0.0, 0)
  }

  function Current(t: Totals, k: SeasonKey): SeasonTotal
  {
    Lookup(t.entries, k)
  }

  /** Credit one side of a game to its entry: add its points and one game. */
  function Credit(t: Totals, k: SeasonKey, pts: real): Totals
  {
    var cur := Current(t, k);
    Totals(t.entries[k := cur.(pts := cur.pts + pts, games := cur.games + 1)],
           if k in t.entries then t.order else t.order + [k])
  }

  /** One game: credit side A, then side B. */
  function AddGame(t: Totals, g: Game): Totals
  {
    Credit(Credit(t, KeyA(g), g.ptsA), KeyB(g), g.ptsB)
  }

  const NoTotals: Totals := Totals(map[], [])

  /** The totals after every game, in game order. */
  function TotalsOf(games: seq<Game>): Totals
  {
    if games == [] then NoTotals else AddGame(TotalsOf(games[..|games| - 1]), games[|games| - 1])
  }

  /** `Array.from(map.values())` */
  function ValuesOf(entries: map<SeasonKey, SeasonTotal>, order: seq<SeasonKey>): (vs: seq<SeasonTotal>)
    ensures |vs| == |order|
    ensures forall i :: 0 <= i < |order| ==> vs[i] == Lookup(entries, order[i])
  {
    if order == [] then [] else ValuesOf(entries, order[..|order| - 1]) + [Lookup(entries, order[|order| - 1])]
  }

  /** The season totals in insertion order. */
  function SeasonTotalList(games: seq<Game>): seq<SeasonTotal>
  {
    var t := TotalsOf(games);
    ValuesOf(t.entries, t.order)
  }

  /** The loop over every game that fills the totals map; side B's entry is
      read after side A's has been stored. */
  method SeasonTotals(games: seq<Game>) returns (totals: seq<SeasonTotal>)
    ensures totals == SeasonTotalList(games)
  {
    var entries: map<SeasonKey, SeasonTotal> := map[];
    var order: seq<SeasonKey> := [];
    for i := 0 to |games|
      invariant Totals(entries, order) == TotalsOf(games[..i])
    {
      assert games[..i + 1][..i] == games[..i];
      var g := games[i];
      entries, order := CreditSide(entries, order, KeyA(g), g.ptsA);
      entries, order := CreditSide(entries, order, KeyB(g), g.ptsB);
    }
    assert games[..|games|] == games;
    TotalsOfValid(games);
    totals := ValuesOf(entries, order);
  }

  /** One side of the loop body: fetch the side's entry (or a fresh one),
      add the points and one game, and store it back. */
  method CreditSide(entries0: map<SeasonKey, SeasonTotal>, order0: seq<SeasonKey>, key: SeasonKey, pts: real)
    returns (entries: map<SeasonKey, SeasonTotal>, order: seq<SeasonKey>)
    ensures Totals(entries, order) == Credit(Totals(entries0, order0), key, pts)
  {
    var cur := if key in entries0 then entries0[key] else SeasonTotal(key.team, key.season, 0.0, 0);
    cur := cur.(pts := cur.pts + pts, games := cur.games + 1);
    order := if key in entries0 then order0 else order0 + [key];
    entries := entries0[key := cur];
  }

  lemma CreditValid(t: Totals, k: SeasonKey, pts: real)
    requires ValidTotals(t)
    ensures ValidTotals(Credit(t, k, pts))
  {
  }

  lemma AddGameValid(t: Totals, g: Game)
    requires ValidTotals(t)
    ensures ValidTotals(AddGame(t, g))
  {
    CreditValid(t, KeyA(g), g.ptsA);
    CreditValid(Credit(t, KeyA(g), g.ptsA), KeyB(g), g.ptsB);
  }

  lemma {:induction false} TotalsOfValid(games: seq<Game>)
    ensures ValidTotals(TotalsOf(games))
  {
    if games != [] {
      TotalsOfValid(games[..|games| - 1]);
      AddGameValid(TotalsOf(games[..|games| - 1]), games[|games| - 1]);
    }
  }

  /** The points credited to key `k` over all games: each game side whose key is `k`. */
  function SidePts(games: seq<Game>, k: SeasonKey): real
  {
    if games == [] then 0.0
    else
      var g := games[|games| - 1];
      SidePts(games[..|games| - 1], k) + (if KeyA(g) == k then g.ptsA else 0.0) + (if KeyB(g) == k then g.ptsB else 0.0)
  }

  /** The number of game sides whose key is `k`. */
  function SideCount(games: seq<Game>, k: SeasonKey): nat
  {
    if games == [] then 0
    else
      var g := games[|games| - 1];
      SideCount(games[..|games| - 1], k) + (if KeyA(g) == k then 1 else 0) + (if KeyB(g) == k then 1 else 0)
  }

  /** Every (season, owner) that played has exactly one entry, holding the
      points it scored and the number of games it played. */
  lemma {:induction false} TotalsOfEntries(games: seq<Game>, k: SeasonKey)
    ensures var t := TotalsOf(games);
      && (k in t.entries <==> SideCount(games, k) > 0)
      && (k in t.entries ==> t.entries[k] == SeasonTotal(k.team, k.season, SidePts(games, k), SideCount(games, k)))
  {
    if games != [] {
      var init, g := games[..|games| - 1], games[|games| - 1];
      TotalsOfEntries(init, k);
      if SideCount(init, k) == 0 {
        NoSidesNoPts(init, k);
      }
      var t1 := Credit(TotalsOf(init), KeyA(g), g.ptsA);
      var p1 := SidePts(init, k) + (if KeyA(g) == k then g.ptsA else 0.0);
      var n1 := SideCount(init, k) + (if KeyA(g) == k then 1 else 0);
      CreditHolds(TotalsOf(init), KeyA(g), g.ptsA, k, SidePts(init, k), SideCount(init, k));
      CreditHolds(t1, KeyB(g), g.ptsB, k, p1, n1);
    }
  }

  /** Key `k` has an entry exactly when `n > 0`, holding points `p` over `n` games. */
  predicate Holds(t: Totals, k: SeasonKey, p: real, n: nat)
  {
    && (k in t.entries <==> n > 0)
    && (k in t.entries ==> t.entries[k] == SeasonTotal(k.team, k.season, p, n))
  }

  /** Crediting `key` adds its points and one game to `k` when they are the same key. */
  lemma CreditHolds(t: Totals, key: SeasonKey, pts: real, k: SeasonKey, p: real, n: nat)
    requires Holds(t, k, p, n)
    requires n == 0 ==> p == 0.0
    ensures Holds(Credit(t, key, pts), k, p + (if key == k then pts else 0.0), n + (if key == k then 1 else 0))
  {
  }

  lemma {:induction false} NoSidesNoPts(games: seq<Game>, k: SeasonKey)
    requires SideCount(games, k) == 0
    ensures SidePts(games, k) == 0.0
  {
    if games != [] {
      NoSidesNoPts(games[..|games| - 1], k);
    }
  }

  function SumPts(vs: seq<SeasonTotal>): real
  {
    if vs == [] then 0.0 else SumPts(vs[..|vs| - 1]) + vs[|vs| - 1].pts
  }

  function SumGames(vs: seq<SeasonTotal>): nat
  {
    if vs == [] then 0 else SumGames(vs[..|vs| - 1]) + vs[|vs| - 1].games
  }

  /** The sum of the combined scores of `games`. */
  function SumTotals(games: seq<Game>): real
  {
    if games == [] then 0.0 else SumTotals(games[..|games| - 1]) + games[|games| - 1].total
  }

  /** The sums after changing the entry at position `i`. */
  lemma {:induction false} SumsUpdate(vs: seq<SeasonTotal>, i: nat, v: SeasonTotal)
    requires i < |vs|
    ensures SumPts(vs[i := v]) == SumPts(vs) - vs[i].pts + v.pts
    ensures SumGames(vs[i := v]) == SumGames(vs) - vs[i].games + v.games
  {
    var n := |vs| - 1;
    assert vs[i := v][..n] == if i == n then vs[..n] else vs[..n][i := v];
    if i < n {
      SumsUpdate(vs[..n], i, v);
    }
  }

  lemma SumsAppend(vs: seq<SeasonTotal>, v: SeasonTotal)
    ensures SumPts(vs + [v]) == SumPts(vs) + v.pts
    ensures SumGames(vs + [v]) == SumGames(vs) + v.games
  {
    assert (vs + [v])[..|vs|] == vs;
  }

  lemma ValuesOfUpdate(entries: map<SeasonKey, SeasonTotal>, order: seq<SeasonKey>, i: nat, v: SeasonTotal)
    requires forall a, b :: 0 <= a < b < |order| ==> order[a] != order[b]
    requires i < |order|
    ensures ValuesOf(entries[order[i] := v], order) == ValuesOf(entries, order)[i := v]
  {
    var vs, ws := ValuesOf(entries, order), ValuesOf(entries[order[i] := v], order);
    forall j | 0 <= j < |order| ensures ws[j] == vs[i := v][j] {
      if j != i {
        assert order[j] != order[i];
      }
    }
  }

  lemma ValuesOfAppend(entries: map<SeasonKey, SeasonTotal>, order: seq<SeasonKey>, k: SeasonKey, v: SeasonTotal)
    requires k !in order
    ensures ValuesOf(entries[k := v], order + [k]) == ValuesOf(entries, order) + [v]
  {
    var vs, ws := ValuesOf(entries, order), ValuesOf(entries[k := v], order + [k]);
    forall j | 0 <= j < |order| ensures ws[j] == vs[j] {
      assert (order + [k])[j] == order[j];
    }
  }

  lemma SumsOfUpdate(entries: map<SeasonKey, SeasonTotal>, order: seq<SeasonKey>, i: nat, v: SeasonTotal)
    requires forall a, b :: 0 <= a < b < |order| ==> order[a] != order[b]
    requires i < |order|
    ensures var vs, ws := ValuesOf(entries, order), ValuesOf(entries[order[i] := v], order);
      && SumPts(ws) == SumPts(vs) - Lookup(entries, order[i]).pts + v.pts
      && SumGames(ws) == SumGames(vs) - Lookup(entries, order[i]).games + v.games
  {
    ValuesOfUpdate(entries, order, i, v);
    SumsUpdate(ValuesOf(entries, order), i, v);
  }

  lemma SumsOfAppend(entries: map<SeasonKey, SeasonTotal>, order: seq<SeasonKey>, k: SeasonKey, v: SeasonTotal)
    requires k !in order
    ensures var vs, ws := ValuesOf(entries, order), ValuesOf(entries[k := v], order + [k]);
      && SumPts(ws) == SumPts(vs) + v.pts
      && SumGames(ws) == SumGames(vs) + v.games
  {
    ValuesOfAppend(entries, order, k, v);
    SumsAppend(ValuesOf(entries, order), v);
  }

  /** Crediting one side adds its points and one game to the sums of the values. */
  lemma CreditSums(t: Totals, k: SeasonKey, pts: real)
    requires ValidTotals(t)
    ensures var t' := Credit(t, k, pts);
      && SumPts(ValuesOf(t'.entries, t'.order)) == SumPts(ValuesOf(t.entries, t.order)) + pts
      && SumGames(ValuesOf(t'.entries, t'.order)) == SumGames(ValuesOf(t.entries, t.order)) + 1
  {
    if k in t.entries {
      var i :| 0 <= i < |t.order| && t.order[i] == k;
      CreditSumsExisting(t, i, pts);
    } else {
      CreditSumsNew(t, k, pts);
    }
  }

  lemma CreditSumsExisting(t: Totals, i: nat, pts: real)
    requires forall a, b :: 0 <= a < b < |t.order| ==> t.order[a] != t.order[b]
    requires i < |t.order| && t.order[i] in t.entries
    ensures var t' := Credit(t, t.order[i], pts);
      && SumPts(ValuesOf(t'.entries, t'.order)) == SumPts(ValuesOf(t.entries, t.order)) + pts
      && SumGames(ValuesOf(t'.entries, t'.order)) == SumGames(ValuesOf(t.entries, t.order)) + 1
  {
    var cur := Current(t, t.order[i]);
    var v := cur.(pts := cur.pts + pts, games := cur.games + 1);
    assert Credit(t, t.order[i], pts) == Totals(t.entries[t.order[i] := v], t.order);
    SumsOfUpdate(t.entries, t.order, i, v);
  }

  lemma CreditSumsNew(t: Totals, k: SeasonKey, pts: real)
    requires k !in t.order && k !in t.entries
    ensures var t' := Credit(t, k, pts);
      && SumPts(ValuesOf(t'.entries, t'.order)) == SumPts(ValuesOf(t.entries, t.order)) + pts
      && SumGames(ValuesOf(t'.entries, t'.order)) == SumGames(ValuesOf(t.entries, t.order)) + 1
  {
    var v := SeasonTotal(k.team, k.season, 0.0 + pts, 0 + 1);
    assert Credit(t, k, pts) == Totals(t.entries[k := v], t.order + [k]);
    SumsOfAppend(t.entries, t.order, k, v);
  }

  /** Every game adds its two sides' points, and one game to each side: the
      game counts add up to twice the number of games and the points to the
      sum of the games' combined scores. */
  lemma {:induction false} SeasonTotalsSums(games: seq<Game>)
    requires forall g :: g in games ==> g.total == g.ptsA + g.ptsB
    ensures SumGames(SeasonTotalList(games)) == 2 * |games|
    ensures SumPts(SeasonTotalList(games)) == SumTotals(games)
  {
    if games != [] {
      var init, g := games[..|games| - 1], games[|games| - 1];
      forall x | x in init ensures x.total == x.ptsA + x.ptsB {
        assert x in games;
      }
      SeasonTotalsSums(init);
      TotalsOfValid(init);
      AddGameSums(TotalsOf(init), g);
      assert g in games;
    }
  }

  /** One game adds both sides' points and two games to the sums. */
  lemma AddGameSums(t: Totals, g: Game)
    requires ValidTotals(t)
    ensures var t' := AddGame(t, g);
      && SumPts(ValuesOf(t'.entries, t'.order)) == SumPts(ValuesOf(t.entries, t.order)) + g.ptsA + g.ptsB
      && SumGames(ValuesOf(t'.entries, t'.order)) == SumGames(ValuesOf(t.entries, t.order)) + 2
  {
    CreditSums(t, KeyA(g), g.ptsA);
    CreditValid(t, KeyA(g), g.ptsA);
    CreditSums(Credit(t, KeyA(g), g.ptsA), KeyB(g), g.ptsB);
  }

  /** The update as the source writes it. Both entries are read before either
      is stored. When the key is already present both reads return the one
      stored object, so both increments land on it; when it is absent each read
      creates a fresh object and the second store replaces the first. */
  function AddGameAsWritten(t: Totals, g: Game): Totals
  {
    var keyA, keyB := KeyA(g), KeyB(g);
    var curA, curB := Current(t, keyA), Current(t, keyB);
    var aliased := keyA == keyB && keyA in t.entries;
    var newA := curA.(pts := curA.pts + g.ptsA, games := curA.games + 1);
    var newB := if aliased then newA.(pts := newA.pts + g.ptsB, games := newA.games + 1)
                else curB.(pts := curB.pts + g.ptsB, games := curB.games + 1);
    var afterA := t.entries[keyA := if aliased then newB else newA];
    var orderA := if keyA in t.entries then t.order else t.order + [keyA];
    Totals(afterA[keyB := newB], if keyB in afterA then orderA else orderA + [keyB])
  }

  function TotalsAsWritten(games: seq<Game>): Totals
  {
    if games == [] then NoTotals else AddGameAsWritten(TotalsAsWritten(games[..|games| - 1]), games[|games| - 1])
  }

  /** The source's update agrees with the corrected one except on the first
      game of a (season, owner) that appears on both sides of it. */
  lemma AsWrittenAgreesOtherwise(t: Totals, g: Game)
    requires KeyA(g) != KeyB(g) || KeyA(g) in t.entries
    ensures AddGameAsWritten(t, g) == AddGame(t, g)
  {
  }

  /** Over a whole list of games in which no game has the same key on both
      sides, the source's totals are the corrected ones. */
  lemma {:induction false} AsWrittenAgreesWithoutSelfGames(games: seq<Game>)
    requires forall g :: g in games ==> KeyA(g) != KeyB(g)
    ensures TotalsAsWritten(games) == TotalsOf(games)
  {
    if games != [] {
      var init, g := games[..|games| - 1], games[|games| - 1];
      assert forall x :: x in init ==> x in games;
      AsWrittenAgreesWithoutSelfGames(init);
      AsWrittenAgreesOtherwise(TotalsOf(init), g);
    }
  }

  /** A first game with the same owner name on both sides in one season: the
      source keeps only side B's points and counts one game, where the two sides
      should have added 190 points and two games. */
  lemma AsWrittenLosesSideA()
    ensures var g := Game(1, TeamName("Sam", Some(2024)), TeamName("Sam", Some(2024)), 100.0, 90.0, 10.0, 190.0, Some(2024));
      var k := SeasonKey(Some(2024), "Sam");
      && TotalsAsWritten([g]).entries[k] == SeasonTotal("Sam", Some(2024), 90.0, 1)
      && TotalsOf([g]).entries[k] == SeasonTotal("Sam", Some(2024), 190.0, 2)
  {
    var g := Game(1, TeamName("Sam", Some(2024)), TeamName("Sam", Some(2024)), 100.0, 90.0, 10.0, 190.0, Some(2024));
    assert [g][..0] == [];
  }

  /** `(a, b) => b.pts - a.pts` */
  predicate MorePts(a: SeasonTotal, b: SeasonTotal)
  {
    a.pts > b.pts
  }

  /** `(a, b) => a.pts - b.pts` */
  predicate FewerPts(a: SeasonTotal, b: SeasonTotal)
  {
    a.pts < b.pts
  }

  /** `(a, b) => b.margin - a.margin` */
  predicate WiderMargin(a: Game, b: Game)
  {
    a.margin > b.margin
  }

  /** `(a, b) => b.total - a.total` */
  predicate HigherTotal(a: Game, b: Game)
  {
    a.total > b.total
  }

  /** The four record comparators are strict weak orders. */
  lemma RecordOrders()
    ensures StableSort.StrictWeakOrder(MorePts) && StableSort.StrictWeakOrder(FewerPts)
    ensures StableSort.StrictWeakOrder(WiderMargin) && StableSort.StrictWeakOrder(HigherTotal)
  {
  }

  lemma MorePtsTop(s: seq<SeasonTotal>)
    ensures var r := Take(StableSort.SortBy(s, MorePts), ListSize);
      && |r| == (if |s| <= ListSize then |s| else ListSize)
      && StableSort.Sorted(r, MorePts)
      && multiset(r) <= multiset(s)
      && forall x, y :: x in multiset(s) - multiset(r) && y in r ==> x.pts <= y.pts
  {
    var r := Take(StableSort.SortBy(s, MorePts), ListSize);
    assert && |r| == (if |s| <= ListSize then |s| else ListSize)
           && StableSort.Sorted(r, MorePts)
           && multiset(r) <= multiset(s)
           && forall x: SeasonTotal, y: SeasonTotal :: x in multiset(s) - multiset(r) && y in r ==> !MorePts(x, y)
    by {
      RecordOrders();
      StableSort.TopOf(s, ListSize, MorePts);
    }
    forall x: SeasonTotal, y: SeasonTotal | x in multiset(s) - multiset(r) && y in r ensures x.pts <= y.pts {
      assert !MorePts(x, y);
    }
  }

  lemma FewerPtsTop(s: seq<SeasonTotal>)
    ensures var r := Take(StableSort.SortBy(s, FewerPts), ListSize);
      && |r| == (if |s| <= ListSize then |s| else ListSize)
      && StableSort.Sorted(r, FewerPts)
      && multiset(r) <= multiset(s)
      && forall x, y :: x in multiset(s) - multiset(r) && y in r ==> x.pts >= y.pts
  {
    var r := Take(StableSort.SortBy(s, FewerPts), ListSize);
    assert && |r| == (if |s| <= ListSize then |s| else ListSize)
           && StableSort.Sorted(r, FewerPts)
           && multiset(r) <= multiset(s)
           && forall x: SeasonTotal, y: SeasonTotal :: x in multiset(s) - multiset(r) && y in r ==> !FewerPts(x, y)
    by {
      RecordOrders();
      StableSort.TopOf(s, ListSize, FewerPts);
    }
    forall x: SeasonTotal, y: SeasonTotal | x in multiset(s) - multiset(r) && y in r ensures x.pts >= y.pts {
      assert !FewerPts(x, y);
    }
  }

  lemma WiderMarginTop(s: seq<Game>)
    ensures var r := Take(StableSort.SortBy(s, WiderMargin), ListSize);
      && |r| == (if |s| <= ListSize then |s| else ListSize)
      && StableSort.Sorted(r, WiderMargin)
      && multiset(r) <= multiset(s)
      && forall x, y :: x in multiset(s) - multiset(r) && y in r ==> x.margin <= y.margin
  {
    var r := Take(StableSort.SortBy(s, WiderMargin), ListSize);
    assert && |r| == (if |s| <= ListSize then |s| else ListSize)
           && StableSort.Sorted(r, WiderMargin)
           && multiset(r) <= multiset(s)
           && forall x: Game, y: Game :: x in multiset(s) - multiset(r) && y in r ==> !WiderMargin(x, y)
    by {
      RecordOrders();
      StableSort.TopOf(s, ListSize, WiderMargin);
    }
    forall x: Game, y: Game | x in multiset(s) - multiset(r) && y in r ensures x.margin <= y.margin {
      assert !WiderMargin(x, y);
    }
  }

  lemma HigherTotalTop(s: seq<Game>)
    ensures var r := Take(StableSort.SortBy(s, HigherTotal), ListSize);
      && |r| == (if |s| <= ListSize then |s| else ListSize)
      && StableSort.Sorted(r, HigherTotal)
      && multiset(r) <= multiset(s)
      && forall x, y :: x in multiset(s) - multiset(r) && y in r ==> x.total <= y.total
  {
    var r := Take(StableSort.SortBy(s, HigherTotal), ListSize);
    assert && |r| == (if |s| <= ListSize then |s| else ListSize)
           && StableSort.Sorted(r, HigherTotal)
           && multiset(r) <= multiset(s)
           && forall x: Game, y: Game :: x in multiset(s) - multiset(r) && y in r ==> !HigherTotal(x, y)
    by {
      RecordOrders();
      StableSort.TopOf(s, ListSize, HigherTotal);
    }
    forall x: Game, y: Game | x in multiset(s) - multiset(r) && y in r ensures x.total <= y.total {
      assert !HigherTotal(x, y);
    }
  }

  /** The four record lists of the records page. */
  datatype RecordLists = RecordLists(seasonHigh: seq<SeasonTotal>, seasonLow: seq<SeasonTotal>,
                                     blowouts: seq<Game>, highestCombined: seq<Game>)

  const ListSize: nat := 5

  /** The records memo: empty lists without games, otherwise the first five of
      each ordering. */
  function Records(games: seq<Game>): RecordLists
  {
    if games == [] then RecordLists([], [], [], [])
    else
      var totals := SeasonTotalList(games);
      RecordLists(Take(StableSort.SortBy(totals, MorePts), ListSize),
                  Take(StableSort.SortBy(totals, FewerPts), ListSize),
                  Take(StableSort.SortBy(games, WiderMargin), ListSize),
                  Take(StableSort.SortBy(games, HigherTotal), ListSize))
  }

  /** At most five season totals, highest points first, and no total left out
      scored more than one kept. */
  lemma SeasonHighTopFive(games: seq<Game>)
    ensures var r, totals := Records(games).seasonHigh, SeasonTotalList(games);
      && |r| == (if |totals| <= ListSize then |totals| else ListSize)
      && StableSort.Sorted(r, MorePts)
      && multiset(r) <= multiset(totals)
      && (forall x, y :: x in multiset(totals) - multiset(r) && y in r ==> x.pts <= y.pts)
  {
    MorePtsTop(SeasonTotalList(games));
    if games == [] {
      assert SeasonTotalList(games) == [];
    }
  }



  /** At most five season totals, lowest points first, and no total left out
      scored less than one kept. */
  lemma SeasonLowTopFive(games: seq<Game>)
    ensures var r, totals := Records(games).seasonLow, SeasonTotalList(games);
      && |r| == (if |totals| <= ListSize then |totals| else ListSize)
      && StableSort.Sorted(r, FewerPts)
      && multiset(r) <= multiset(totals)
      && (forall x, y :: x in multiset(totals) - multiset(r) && y in r ==> x.pts >= y.pts)
  {
    FewerPtsTop(SeasonTotalList(games));
    if games == [] {
      assert SeasonTotalList(games) == [];
    }
  }



  /** At most five games, widest margin first, and no game left out had a
      wider margin than one kept. */
  lemma BlowoutsTopFive(games: seq<Game>)
    ensures var r := Records(games).blowouts;
      && |r| == (if |games| <= ListSize then |games| else ListSize)
      && StableSort.Sorted(r, WiderMargin)
      && multiset(r) <= multiset(games)
      && (forall x, y :: x in multiset(games) - multiset(r) && y in r ==> x.margin <= y.margin)
  {
    WiderMarginTop(games);
  }



  /** At most five games, highest combined score first, and no game left out
      had a higher combined score than one kept. */
  lemma HighestCombinedTopFive(games: seq<Game>)
    ensures var r := Records(games).highestCombined;
      && |r| == (if |games| <= ListSize then |games| else ListSize)
      && StableSort.Sorted(r, HigherTotal)
      && multiset(r) <= multiset(games)
      && (forall x, y :: x in multiset(games) - multiset(r) && y in r ==> x.total <= y.total)
  {
    HigherTotalTop(games);
  }


}
