/** Game derivation: one league-week's matchup rows are bucketed by their
    matchup grouping key, and every bucket holding at least two rows becomes
    one game between its two highest scorers. The buckets live in a `Map`
    whose iteration order is the order in which keys first appear. */
module Games {
  import opened Base
  import opened Sleeper
  import StableSort

  /** The grouping key of a row: its matchup id, or, when the API gave none,
      a key of its own built from the roster id. */
  datatype GroupKey = ByMatchup(id: int) | Unpaired(rosterId: int)

  function KeyOf(m: MatchupRow): GroupKey
  {
    match m.matchupId
    case Some(id) => ByMatchup(id)
    case None => Unpaired(m.rosterId)
  }

  /** One derived game: side A is the higher scorer. */
  datatype Game = Game(week: int, teamA: TeamName, teamB: TeamName, ptsA: real, ptsB: real,
                       margin: real, total: real, season: Option<int>)

  /** The bucket comparator `(a, b) => b.points - a.points`: higher points first. */
  predicate HigherPoints(a: MatchupRow, b: MatchupRow)
  {
    Points(a) > Points(b)
  }

  lemma HigherPointsOrder()
    ensures StableSort.StrictWeakOrder(HigherPoints)
  {
  }

  /** The rows of `rows` whose key is `k`, in input order (`byMid.get(k)`). */
  function Bucket(rows: seq<MatchupRow>, k: GroupKey): (b: seq<MatchupRow>)
    ensures forall m :: m in b ==> m in rows && KeyOf(m) == k
    ensures forall m :: m in rows && KeyOf(m) == k ==> m in b
  {
    if rows == [] then []
    else
      var last := rows[|rows| - 1];
      assert rows == rows[..|rows| - 1] + [last];
      Bucket(rows[..|rows| - 1], k) + (if KeyOf(last) == k then [last] else [])
  }

  /** The keys of `byMid` in insertion order: each key once, where it first appears. */
  function Keys(rows: seq<MatchupRow>): (ks: seq<GroupKey>)
    ensures forall i, j :: 0 <= i < j < |ks| ==> ks[i] != ks[j]
    ensures forall k :: k in ks <==> Bucket(rows, k) != []
  {
    if rows == [] then []
    else
      var init := Keys(rows[..|rows| - 1]);
      var k := KeyOf(rows[|rows| - 1]);
      if k in init then init else init + [k]
  }

  /** `arr.sort(...)` and destructuring `[A, B]`: the first two rows of the bucket in
      descending order of points (ties keep the bucket's order). */
  function TopTwo(bucket: seq<MatchupRow>): (ab: (MatchupRow, MatchupRow))
    requires |bucket| >= 2
  {
    var sorted := StableSort.SortBy(bucket, HigherPoints);
    (sorted[0], sorted[1])
  }

  /** The game a bucket of two or more rows yields. */
  function GameOf(contexts: seq<LeagueContext>, w: WeekMatchups, bucket: seq<MatchupRow>): Game
    requires |bucket| >= 2
  {
    var (a, b) := TopTwo(bucket);
    var ptsA, ptsB := Points(a), Points(b);
    Game(w.week,
         TeamNameOf(contexts, w.leagueId, w.season, a.rosterId),
         TeamNameOf(contexts, w.leagueId, w.season, b.rosterId),
         ptsA, ptsB,
         if ptsA - ptsB >= 0.0 then ptsA - ptsB else ptsB - ptsA,
         ptsA + ptsB,
         w.season)
  }

  /** The games of the buckets named by `keys`, in that order. */
  function GamesOver(contexts: seq<LeagueContext>, w: WeekMatchups, keys: seq<GroupKey>): seq<Game>
  {
    if keys == [] then []
    else
      var b := Bucket(w.matchups, keys[|keys| - 1]);
      GamesOver(contexts, w, keys[..|keys| - 1]) + (if |b| >= 2 then [GameOf(contexts, w, b)] else [])
  }

  /** Every game of one league-week. */
  function WeekGames(contexts: seq<LeagueContext>, w: WeekMatchups): seq<Game>
  {
    GamesOver(contexts, w, Keys(w.matchups))
  }

  /** Every game of every fetched league-week, in fetch order. */
  function AllGames(contexts: seq<LeagueContext>, weeks: seq<WeekMatchups>): seq<Game>
  {
    if weeks == [] then []
    else AllGames(contexts, weeks[..|weeks| - 1]) + WeekGames(contexts, weeks[|weeks| - 1])
  }

  /** The first inner loop of the derivation memo: push every row into the
      `byMid` bucket of its key; `order` records the map's insertion order. */
  method GroupRows(rows: seq<MatchupRow>) returns (byMid: map<GroupKey, seq<MatchupRow>>, order: seq<GroupKey>)
    ensures order == Keys(rows)
    ensures forall k :: k in order ==> k in byMid && byMid[k] == Bucket(rows, k)
    ensures forall k :: k in byMid ==> k in order
  {
    byMid, order := map[], [];
    for i := 0 to |rows|
      invariant order == Keys(rows[..i])
      invariant forall k :: k in byMid <==> k in order
      invariant forall k :: k in byMid ==> byMid[k] == Bucket(rows[..i], k)
    {
      var m := rows[i];
      var mid := KeyOf(m);
      BucketStep(rows, i);
      var arr := if mid in byMid then byMid[mid] else [];
      arr := arr + [m];
      if mid !in byMid {
        order := order + [mid];
      }
      byMid := byMid[mid := arr];
    }
    assert rows[..|rows|] == rows;
  }

  lemma BucketStep(rows: seq<MatchupRow>, i: nat)
    requires i < |rows|
    ensures var pre, m := rows[..i], rows[i];
      && Keys(rows[..i + 1]) == (if KeyOf(m) in Keys(pre) then Keys(pre) else Keys(pre) + [KeyOf(m)])
      && forall k :: Bucket(rows[..i + 1], k) == Bucket(pre, k) + (if KeyOf(m) == k then [m] else [])
  {
    assert rows[..i + 1][..i] == rows[..i];
  }

  /** The inner loops of the derivation memo for one league-week: fill `byMid`,
      then walk it and turn every bucket of two or more rows into a game. */
  method DeriveWeekGames(contexts: seq<LeagueContext>, w: WeekMatchups) returns (games: seq<Game>)
    ensures games == WeekGames(contexts, w)
  {
    var byMid, order := GroupRows(w.matchups);
    games := GamesOfBuckets(contexts, w, byMid, order);
  }

  /** The second inner loop: walk `byMid` in key order and turn every bucket
      of two or more rows into a game. */
  method GamesOfBuckets(contexts: seq<LeagueContext>, w: WeekMatchups, byMid: map<GroupKey, seq<MatchupRow>>, order: seq<GroupKey>)
    returns (games: seq<Game>)
    requires forall k :: k in order ==> k in byMid && byMid[k] == Bucket(w.matchups, k)
    ensures games == GamesOver(contexts, w, order)
  {
    games := [];
    assert order[..0] == [];
    for j := 0 to |order|
      invariant games == GamesOver(contexts, w, order[..j])
    {
      assert order[..j + 1] == order[..j] + [order[j]];
      GamesOverSnoc(contexts, w, order[..j], order[j]);
      var arr := byMid[order[j]];
      assert arr == Bucket(w.matchups, order[j]);
      if |arr| >= 2 {
        var g := BucketGame(contexts, w, arr);
        games := games + [g];
      }
    }
    assert order[..|order|] == order;
  }

  /** The body of the second inner loop for one bucket: sort it by points,
      take the top two rows as sides A and B and build their game. */
  method BucketGame(contexts: seq<LeagueContext>, w: WeekMatchups, arr: seq<MatchupRow>) returns (g: Game)
    requires |arr| >= 2
    ensures g == GameOf(contexts, w, arr)
  {
    var sorted := StableSort.SortBy(arr, HigherPoints);
    var a, b := sorted[0], sorted[1];
    var ptsA, ptsB := Points(a), Points(b);
    var margin := if ptsA - ptsB >= 0.0 then ptsA - ptsB else ptsB - ptsA;
    g := Game(w.week,
              TeamNameOf(contexts, w.leagueId, w.season, a.rosterId),
              TeamNameOf(contexts, w.leagueId, w.season, b.rosterId),
              ptsA, ptsB, margin, ptsA + ptsB, w.season);
  }

  lemma GamesOverSnoc(contexts: seq<LeagueContext>, w: WeekMatchups, keys: seq<GroupKey>, k: GroupKey)
    ensures var b := Bucket(w.matchups, k);
      GamesOver(contexts, w, keys + [k])
        == GamesOver(contexts, w, keys) + (if |b| >= 2 then [GameOf(contexts, w, b)] else [])
  {
    assert (keys + [k])[..|keys|] == keys;
  }

  /** The outer loop of the derivation memo over every fetched league-week. */
  method DeriveGames(contexts: seq<LeagueContext>, weeks: seq<WeekMatchups>) returns (gameRows: seq<Game>)
    ensures gameRows == AllGames(contexts, weeks)
  {
    gameRows := [];
    for i := 0 to |weeks|
      invariant gameRows == AllGames(contexts, weeks[..i])
    {
      assert weeks[..i + 1][..i] == weeks[..i];
      var g := DeriveWeekGames(contexts, weeks[i]);
      gameRows := gameRows + g;
    }
    assert weeks[..|weeks|] == weeks;
  }

  /** The row the sort puts first scores at least as much as any row of the bucket. */
  lemma TopIsMax(bucket: seq<MatchupRow>)
    requires |bucket| >= 2
    ensures forall m :: m in bucket ==> Points(m) <= Points(TopTwo(bucket).0)
  {
    var sorted := StableSort.SortBy(bucket, HigherPoints);
    HigherPointsOrder();
    StableSort.SortBySorted(bucket, HigherPoints);
    forall m | m in bucket ensures Points(m) <= Points(sorted[0]) {
      assert m in multiset(sorted);
      var k :| 0 <= k < |sorted| && sorted[k] == m;
      if k > 0 {
        assert !HigherPoints(sorted[k], sorted[0]);
      }
    }
  }

  /** The rows scoring exactly `x`. */
  function ScoresExactly(x: real): MatchupRow -> bool
  {
    m => Points(m) == x
  }

  /** The two rows a bucket's game is played between: two different rows of
      the bucket; A scores at least as much as any row, and is the first row
      (in bucket order) to reach that score; B scores at least as much as any
      row other than A and B. */
  lemma {:induction false} TopTwoPicksHighest(bucket: seq<MatchupRow>)
    requires |bucket| >= 2
    ensures var (a, b) := TopTwo(bucket);
      && multiset{a, b} <= multiset(bucket)
      && Points(a) >= Points(b)
      && (forall m :: m in bucket ==> Points(m) <= Points(a))
      && (forall m :: m in multiset(bucket) - multiset{a, b} ==> Points(m) <= Points(b))
      && (exists i :: 0 <= i < |bucket| && bucket[i] == a && forall j :: 0 <= j < i ==> Points(bucket[j]) < Points(a))
  {
    var sorted := StableSort.SortBy(bucket, HigherPoints);
    HigherPointsOrder();
    StableSort.SortBySorted(bucket, HigherPoints);
    var a, b := sorted[0], sorted[1];
    assert sorted == [a, b] + sorted[2..];
    assert multiset(sorted) == multiset{a, b} + multiset(sorted[2..]);
    TopIsMax(bucket);
    forall m | m in multiset(bucket) - multiset{a, b} ensures Points(m) <= Points(b) {
      assert m in multiset(sorted[2..]);
      var k :| 0 <= k < |sorted[2..]| && sorted[2..][k] == m;
      assert !HigherPoints(sorted[k + 2], sorted[1]);
    }
    FirstOfTopIsFirstInBucket(bucket);
  }

  /** Rows with the same score are tied, so the sort keeps them in bucket order. */
  lemma TopClassStable(bucket: seq<MatchupRow>, x: real)
    ensures Filter(StableSort.SortBy(bucket, HigherPoints), ScoresExactly(x)) == Filter(bucket, ScoresExactly(x))
  {
    HigherPointsOrder();
    StableSort.Stable(bucket, ScoresExactly(x), HigherPoints);
  }

  /** Ties keep their bucket order, so the row the sort puts first is the first
      row of the bucket to reach the highest score. */
  lemma FirstOfTopIsFirstInBucket(bucket: seq<MatchupRow>)
    requires |bucket| >= 2
    ensures var a := TopTwo(bucket).0;
      exists i :: 0 <= i < |bucket| && bucket[i] == a && forall j :: 0 <= j < i ==> Points(bucket[j]) < Points(a)
  {
    var a := TopTwo(bucket).0;
    TopIsMax(bucket);
    TopHeadsItsClass(bucket);
    FirstOfClassIsFirstReaching(bucket, a);
  }

  /** Among the rows scoring as much as the sort's first row, that row comes first in the bucket. */
  lemma TopHeadsItsClass(bucket: seq<MatchupRow>)
    requires |bucket| >= 2
    ensures var a := TopTwo(bucket).0;
      Filter(bucket, ScoresExactly(Points(a))) != [] && Filter(bucket, ScoresExactly(Points(a)))[0] == a
  {
    var sorted := StableSort.SortBy(bucket, HigherPoints);
    var a := sorted[0];
    TopClassStable(bucket, Points(a));
    assert sorted == [a] + sorted[1..];
  }

  /** A maximal row heading its score class in the bucket is the first row to reach that score. */
  lemma FirstOfClassIsFirstReaching(bucket: seq<MatchupRow>, a: MatchupRow)
    requires forall m :: m in bucket ==> Points(m) <= Points(a)
    requires Filter(bucket, ScoresExactly(Points(a))) != [] && Filter(bucket, ScoresExactly(Points(a)))[0] == a
    ensures exists i :: 0 <= i < |bucket| && bucket[i] == a && forall j :: 0 <= j < i ==> Points(bucket[j]) < Points(a)
  {
    var top := ScoresExactly(Points(a));
    assert Filter(bucket, top)[0] in bucket;
    var i := FirstIndex(bucket, top);
    forall j | 0 <= j < i ensures Points(bucket[j]) < Points(a) {
      assert !top(bucket[j]);
      assert bucket[j] in bucket;
    }
  }

  /** The position of the first element of `s` satisfying `p`; that element
      heads `Filter(s, p)`. */
  ghost function FirstIndex(s: seq<MatchupRow>, p: MatchupRow -> bool): (i: nat)
    requires exists m :: m in s && p(m)
    ensures i < |s| && p(s[i]) && forall j :: 0 <= j < i ==> !p(s[j])
    ensures Filter(s, p) != [] && Filter(s, p)[0] == s[i]
  {
    assert s == [s[0]] + s[1..];
    if p(s[0]) then 0
    else
      var m :| m in s && p(m);
      assert m in s[1..];
      1 + FirstIndex(s[1..], p)
  }

  /** The shape every derived game has: side A scored at least as much as
      side B, the margin is their non-negative difference and the total their sum. */
  predicate WellFormedGame(g: Game)
  {
    g.ptsA >= g.ptsB && g.margin == g.ptsA - g.ptsB && g.margin >= 0.0 && g.total == g.ptsA + g.ptsB
  }

  /** A bucket's game is played between its top scorer (side A, the first row to
      reach the top score) and the best of the rest (side B), named by their
      rosters, in the bucket's week and season. */
  lemma GameOfPairsTopScorers(contexts: seq<LeagueContext>, w: WeekMatchups, bucket: seq<MatchupRow>)
    requires |bucket| >= 2
    ensures var g := GameOf(contexts, w, bucket);
      && WellFormedGame(g)
      && g.week == w.week && g.season == w.season
      && exists a, b ::
           && multiset{a, b} <= multiset(bucket)
           && g.ptsA == Points(a) && g.ptsB == Points(b)
           && g.teamA == TeamNameOf(contexts, w.leagueId, w.season, a.rosterId)
           && g.teamB == TeamNameOf(contexts, w.leagueId, w.season, b.rosterId)
           && (forall m :: m in bucket ==> Points(m) <= Points(a))
           && (forall m :: m in multiset(bucket) - multiset{a, b} ==> Points(m) <= Points(b))
  {
    TopTwoPicksHighest(bucket);
    var (a, b) := TopTwo(bucket);
    var g := GameOf(contexts, w, bucket);
    assert g.ptsA == Points(a) && g.ptsB == Points(b);
  }

  /** The games of some buckets are all well formed and belong to the week. */
  lemma {:induction false} GamesOverShape(contexts: seq<LeagueContext>, w: WeekMatchups, keys: seq<GroupKey>)
    ensures forall g :: g in GamesOver(contexts, w, keys) ==> WellFormedGame(g) && g.week == w.week && g.season == w.season
  {
    if keys != [] {
      GamesOverShape(contexts, w, keys[..|keys| - 1]);
      var b := Bucket(w.matchups, keys[|keys| - 1]);
      if |b| >= 2 {
        GameOfPairsTopScorers(contexts, w, b);
      }
    }
  }

  /** Every derived game of every week is well formed. */
  lemma {:induction false} AllGamesShape(contexts: seq<LeagueContext>, weeks: seq<WeekMatchups>)
    ensures forall g :: g in AllGames(contexts, weeks) ==> WellFormedGame(g)
    ensures forall g :: g in AllGames(contexts, weeks) ==> exists w :: w in weeks && g.week == w.week && g.season == w.season
  {
    if weeks != [] {
      var init, last := weeks[..|weeks| - 1], weeks[|weeks| - 1];
      AllGamesShape(contexts, init);
      GamesOverShape(contexts, last, Keys(last.matchups));
      forall g | g in AllGames(contexts, weeks)
        ensures exists w :: w in weeks && g.week == w.week && g.season == w.season
      {
        if g in AllGames(contexts, init) {
          var w :| w in init && g.week == w.week && g.season == w.season;
          assert w in weeks;
        } else {
          assert last in weeks;
        }
      }
    }
  }

  /** The keys whose bucket holds at least two rows. */
  function PairedKeys(rows: seq<MatchupRow>, keys: seq<GroupKey>): (ps: seq<GroupKey>)
    ensures |ps| <= |keys|
    ensures forall k :: k in ps <==> k in keys && |Bucket(rows, k)| >= 2
  {
    if keys == [] then []
    else
      var k := keys[|keys| - 1];
      PairedKeys(rows, keys[..|keys| - 1]) + (if |Bucket(rows, k)| >= 2 then [k] else [])
  }

  /** One game per bucket of two or more rows, and none for smaller buckets. */
  lemma {:induction false} OneGamePerPairedBucket(contexts: seq<LeagueContext>, w: WeekMatchups, keys: seq<GroupKey>)
    ensures |GamesOver(contexts, w, keys)| == |PairedKeys(w.matchups, keys)|
  {
    if keys != [] {
      OneGamePerPairedBucket(contexts, w, keys[..|keys| - 1]);
    }
  }

  /** Total size of the buckets named by `keys`. */
  function BucketSizes(rows: seq<MatchupRow>, keys: seq<GroupKey>): nat
  {
    if keys == [] then 0
    else BucketSizes(rows, keys[..|keys| - 1]) + |Bucket(rows, keys[|keys| - 1])|
  }

  /** Adding one row grows exactly the bucket of its key by one. */
  lemma {:induction false} BucketSizesSnocRow(rows: seq<MatchupRow>, m: MatchupRow, keys: seq<GroupKey>)
    requires forall i, j :: 0 <= i < j < |keys| ==> keys[i] != keys[j]
    ensures BucketSizes(rows + [m], keys) == BucketSizes(rows, keys) + (if KeyOf(m) in keys then 1 else 0)
  {
    assert (rows + [m])[..|rows|] == rows;
    if keys != [] {
      var init, k := keys[..|keys| - 1], keys[|keys| - 1];
      assert keys == init + [k];
      BucketSizesSnocRow(rows, m, init);
      assert KeyOf(m) in keys <==> KeyOf(m) in init || KeyOf(m) == k;
      if KeyOf(m) == k {
        assert KeyOf(m) !in init;
      }
    }
  }

  lemma BucketSizesSnocKey(rows: seq<MatchupRow>, keys: seq<GroupKey>, k: GroupKey)
    ensures BucketSizes(rows, keys + [k]) == BucketSizes(rows, keys) + |Bucket(rows, k)|
  {
    assert (keys + [k])[..|keys|] == keys;
  }

  /** The buckets partition the week's rows. */
  lemma {:induction false} BucketsPartitionRows(rows: seq<MatchupRow>)
    ensures BucketSizes(rows, Keys(rows)) == |rows|
  {
    if rows != [] {
      var init, m := rows[..|rows| - 1], rows[|rows| - 1];
      assert rows == init + [m];
      BucketsPartitionRows(init);
      BucketSizesSnocRow(init, m, Keys(init));
      if KeyOf(m) !in Keys(init) {
        BucketSizesSnocKey(rows, Keys(init), KeyOf(m));
        assert Bucket(init, KeyOf(m)) == [];
        assert Bucket(rows, KeyOf(m)) == [m];
      }
    }
  }

  lemma {:induction false} PairedKeysBound(rows: seq<MatchupRow>, keys: seq<GroupKey>)
    ensures 2 * |PairedKeys(rows, keys)| <= BucketSizes(rows, keys)
  {
    if keys != [] {
      PairedKeysBound(rows, keys[..|keys| - 1]);
    }
  }

  /** Every row plays in at most one game, so a week yields at most half as many
      games as it has rows. */
  lemma WeekGamesBound(contexts: seq<LeagueContext>, w: WeekMatchups)
    ensures 2 * |WeekGames(contexts, w)| <= |w.matchups|
  {
    OneGamePerPairedBucket(contexts, w, Keys(w.matchups));
    PairedKeysBound(w.matchups, Keys(w.matchups));
    BucketsPartitionRows(w.matchups);
  }

  /** A row without a matchup id whose roster appears nowhere else in the week
      sits in a bucket of its own and so plays in no game. */
  lemma UnpairedRowAlone(rows: seq<MatchupRow>, i: nat)
    requires i < |rows| && rows[i].matchupId.None?
    requires forall j :: 0 <= j < |rows| && j != i ==> rows[j].rosterId != rows[i].rosterId
    ensures Bucket(rows, KeyOf(rows[i])) == [rows[i]]
  {
    BucketSingle(rows, KeyOf(rows[i]), i);
  }

  lemma {:induction false} BucketSingle(rows: seq<MatchupRow>, k: GroupKey, i: nat)
    requires i < |rows| && KeyOf(rows[i]) == k
    requires forall j :: 0 <= j < |rows| && j != i ==> KeyOf(rows[j]) != k
    ensures Bucket(rows, k) == [rows[i]]
  {
    var init := rows[..|rows| - 1];
    if i < |rows| - 1 {
      BucketSingle(init, k, i);
    } else {
      forall m | m in init ensures KeyOf(m) != k {
        var j :| 0 <= j < |init| && init[j] == m;
        assert rows[j] == m;
      }
      BucketEmpty(init, k);
    }
  }

  lemma {:induction false} BucketEmpty(rows: seq<MatchupRow>, k: GroupKey)
    requires forall m :: m in rows ==> KeyOf(m) != k
    ensures Bucket(rows, k) == []
  {
    if rows != [] {
      BucketEmpty(rows[..|rows| - 1], k);
    }
  }

  /** Two rosters sharing matchup 7 in week 3 make one game, the winner on side A. */
  lemma TwoRowWeekExample(contexts: seq<LeagueContext>)
    ensures var w := WeekMatchups("L", Some(2024), 3,
                                  [MatchupRow(2, Some(7), Some(98.2)), MatchupRow(1, Some(7), Some(101.5))]);
      WeekGames(contexts, w)
        == [Game(3, TeamNameOf(contexts, "L", Some(2024), 1), TeamNameOf(contexts, "L", Some(2024), 2),
                 101.5, 98.2, 3.3, 199.7, Some(2024))]
  {
    var r2, r1 := MatchupRow(2, Some(7), Some(98.2)), MatchupRow(1, Some(7), Some(101.5));
    var rows := [r2, r1];
    var k := ByMatchup(7);
    TwoRowBuckets(r2, r1);
    TwoRowOrder(r2, r1);
    var w := WeekMatchups("L", Some(2024), 3, rows);
    assert [k][..0] == [];
    assert GamesOver(contexts, w, [k]) == [GameOf(contexts, w, rows)];
  }

  lemma TwoRowBuckets(r2: MatchupRow, r1: MatchupRow)
    requires r2.matchupId == Some(7) && r1.matchupId == Some(7)
    ensures Keys([r2, r1]) == [ByMatchup(7)]
    ensures Bucket([r2, r1], ByMatchup(7)) == [r2, r1]
  {
    var rows, k := [r2, r1], ByMatchup(7);
    assert rows[..1] == [r2];
    assert [r2][..0] == [];
    assert Keys([r2]) == [k];
    assert Bucket([r2], k) == [r2];
  }

  lemma TwoRowOrder(r2: MatchupRow, r1: MatchupRow)
    requires r2.points == Some(98.2) && r1.points == Some(101.5)
    ensures StableSort.SortBy([r2, r1], HigherPoints) == [r1, r2]
  {
    var rows := [r2, r1];
    assert rows[..1] == [r2];
    assert [r2][..0] == [];
    assert StableSort.SortBy([r2], HigherPoints) == [r2];
  }
}
