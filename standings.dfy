/** Standings and playoff seeding over the power-score rows. The standings
    table sorts every row by the chosen column, reverses the result when the
    direction is descending, and splits it by conference. The default rank
    and the playoff seeding share one order: a better win-loss difference
    first, then more points-for. Each conference seeds the first three teams
    of that order. */
module Standings {
  import opened Base
  import opened Sleeper
  import opened PowerScores
  import StableSort

  /** The columns a standings header can sort by. */
  datatype SortKey = Rank | Team | Record | PointsFor | PointsAgainst | Average

  datatype Direction = Asc | Desc

  /** The header state: the sort column and its direction. */
  datatype View = View(key: SortKey, dir: Direction)

  const InitialView: View := View(Rank, Asc)

  /** `wins - losses` */
  function Rec(x: PowerScore): int
  {
    x.wins - x.losses
  }

  /** The rank order, shared by the standings' default column and the playoff
      seeding: a better win-loss difference first, then more points-for. */
  predicate RankBefore(a: PowerScore, b: PowerScore)
  {
    Rec(a) > Rec(b) || (Rec(a) == Rec(b) && a.pointsFor > b.pointsFor)
  }

  /** `compare(a, b) < 0` for the chosen column. */
  predicate Before(key: SortKey, a: PowerScore, b: PowerScore)
  {
    match key
    case Rank => RankBefore(a, b)
    case Team => LexLess(a.team, b.team)
    case Record => Rec(a) < Rec(b)
    case PointsFor => a.pointsFor < b.pointsFor
    case PointsAgainst => a.pointsAgainst < b.pointsAgainst
    case Average => a.avgPerWeek < b.avgPerWeek
  }

  function Comparator(key: SortKey): (PowerScore, PowerScore) -> bool
  {
    (a: PowerScore, b: PowerScore) => Before(key, a, b)
  }

  /** Every column's comparator is a strict weak order, so sorting by it is well defined. */
  lemma ComparatorOrder(key: SortKey)
    ensures StableSort.StrictWeakOrder(Comparator(key))
  {
    if key == Team {
      forall a: PowerScore ensures !LexLess(a.team, a.team) {
        LexLessIrreflexive(a.team);
      }
      forall a: PowerScore, b: PowerScore, c: PowerScore | LexLess(a.team, b.team) && LexLess(b.team, c.team)
        ensures LexLess(a.team, c.team)
      {
        LexLessTransitive(a.team, b.team, c.team);
      }
      forall a: PowerScore, b: PowerScore, c: PowerScore | LexLess(a.team, c.team)
        ensures LexLess(a.team, b.team) || LexLess(b.team, c.team)
      {
        if !LexLess(a.team, b.team) && !LexLess(b.team, c.team) && a.team != b.team && b.team != c.team {
          LexLessTotal(a.team, b.team);
          LexLessTotal(b.team, c.team);
          LexLessTransitive(c.team, b.team, a.team);
          LexLessTransitive(a.team, c.team, a.team);
          LexLessIrreflexive(a.team);
        }
      }
    }
  }

  function Reversed<T>(s: seq<T>): (r: seq<T>)
    ensures |r| == |s|
    ensures forall i :: 0 <= i < |s| ==> r[i] == s[|s| - 1 - i]
  {
    if s == [] then [] else [s[|s| - 1]] + Reversed(s[..|s| - 1])
  }

  lemma {:induction false} ReversedConcat<T>(a: seq<T>, b: seq<T>)
    ensures Reversed(a + b) == Reversed(b) + Reversed(a)
  {
  }

  lemma {:induction false} FilterReversed<T>(s: seq<T>, p: T -> bool)
    ensures Filter(Reversed(s), p) == Reversed(Filter(s, p))
  {
    if s != [] {
      var init, last := s[..|s| - 1], s[|s| - 1];
      assert s == init + [last];
      FilterReversed(init, p);
      FilterConcat([last], Reversed(init), p);
      FilterConcat(init, [last], p);
      ReversedConcat(Filter(init, p), Filter([last], p));
    }
  }

  /** The standings rows of every team: sorted by the column, reversed for `desc`. */
  function SortedAll(scores: seq<PowerScore>, v: View): seq<PowerScore>
  {
    var sorted := StableSort.SortBy(scores, Comparator(v.key));
    if v.dir == Desc then Reversed(sorted) else sorted
  }

  function InDivision(d: Division): PowerScore -> bool
  {
    (s: PowerScore) => s.division == d
  }

  /** `byDivision[d]`: the conference's rows, in standings order. */
  function DivisionTable(scores: seq<PowerScore>, v: View, d: Division): seq<PowerScore>
  {
    Filter(SortedAll(scores, v), InDivision(d))
  }

  function Flip(dir: Direction): Direction
  {
    if dir == Asc then Desc else Asc
  }

  /** A header click: the current column flips its direction; another column
      becomes current, ascending for the team name and descending otherwise. */
  function ClickSort(v: View, k: SortKey): (w: View)
    ensures w.key == k
    ensures k == v.key ==> w.dir != v.dir
    ensures k != v.key ==> (w.dir == Asc <==> k == Team)
  {
    if k == v.key then View(k, Flip(v.dir)) else View(k, if k == Team then Asc else Desc)
  }

  /** Clicking the current column twice restores the view. */
  lemma ClickTwiceRestores(v: View)
    ensures ClickSort(ClickSort(v, v.key), v.key) == v
  {
  }

  /** `seedDivision(d)`: the conference's first three teams in rank order. */
  function SeedDivision(scores: seq<PowerScore>, d: Division): seq<PowerScore>
  {
    Take(StableSort.SortBy(Filter(scores, InDivision(d)), Comparator(Rank)), 3)
  }

  /** The conference's rows of the ascending sort are its teams, sorted. */
  lemma AscendingDivision(scores: seq<PowerScore>, key: SortKey, d: Division)
    ensures var s := Filter(StableSort.SortBy(scores, Comparator(key)), InDivision(d));
      && multiset(s) == multiset(Filter(scores, InDivision(d)))
      && forall i, j :: 0 <= i < j < |s| ==> !Before(key, s[j], s[i])
  {
    var s := Filter(StableSort.SortBy(scores, Comparator(key)), InDivision(d));
    assert StableSort.Sorted(s, Comparator(key)) && multiset(s) == multiset(Filter(scores, InDivision(d))) by {
      ComparatorOrder(key);
      StableSort.FilterSortBy(scores, InDivision(d), Comparator(key));
      StableSort.SortBySorted(Filter(scores, InDivision(d)), Comparator(key));
    }
    forall i, j | 0 <= i < j < |s| ensures !Before(key, s[j], s[i]) {
      assert !Comparator(key)(s[j], s[i]);
    }
  }

  /** The standings list of a conference is the conference's rows of the
      ascending sort, reversed for `desc`. */
  lemma DivisionTableIsFiltered(scores: seq<PowerScore>, v: View, d: Division)
    ensures var s := Filter(StableSort.SortBy(scores, Comparator(v.key)), InDivision(d));
      DivisionTable(scores, v, d) == if v.dir == Desc then Reversed(s) else s
  {
    if v.dir == Desc {
      FilterReversed(StableSort.SortBy(scores, Comparator(v.key)), InDivision(d));
    }
  }

  /** A conference's standings list holds exactly its teams. */
  lemma DivisionTableContents(scores: seq<PowerScore>, v: View, d: Division)
    ensures var t := DivisionTable(scores, v, d);
      && multiset(t) == multiset(Filter(scores, InDivision(d)))
      && (forall x :: x in t ==> x.division == d)
  {
    var s := Filter(StableSort.SortBy(scores, Comparator(v.key)), InDivision(d));
    var t := DivisionTable(scores, v, d);
    AscendingDivision(scores, v.key, d);
    DivisionTableIsFiltered(scores, v, d);
    MultisetReversed(s);
    forall x | x in t ensures x.division == d {
      assert x in multiset(s);
      var k :| 0 <= k < |s| && s[k] == x;
      assert InDivision(d)(s[k]);
    }
  }

  /** A conference's standings list is ordered by the column: ascending, or for
      `desc` with no row before a row that the column puts ahead of it. */
  lemma DivisionTableOrder(scores: seq<PowerScore>, v: View, d: Division)
    ensures var t := DivisionTable(scores, v, d);
      && (v.dir == Asc ==> forall i, j :: 0 <= i < j < |t| ==> !Before(v.key, t[j], t[i]))
      && (v.dir == Desc ==> forall i, j :: 0 <= i < j < |t| ==> !Before(v.key, t[i], t[j]))
  {
    var s := Filter(StableSort.SortBy(scores, Comparator(v.key)), InDivision(d));
    AscendingDivision(scores, v.key, d);
    DivisionTableIsFiltered(scores, v, d);
    if v.dir == Desc {
      ReversedDescending(s, v.key);
    }
  }

  /** Reversing an ascending list leaves no row before a row the column puts ahead of it. */
  lemma ReversedDescending(s: seq<PowerScore>, key: SortKey)
    requires forall i, j :: 0 <= i < j < |s| ==> !Before(key, s[j], s[i])
    ensures var t := Reversed(s); forall i, j :: 0 <= i < j < |t| ==> !Before(key, t[i], t[j])
  {
    var t := Reversed(s);
    forall i, j | 0 <= i < j < |t| ensures !Before(key, t[i], t[j]) {
      assert t[i] == s[|s| - 1 - i] && t[j] == s[|s| - 1 - j];
    }
  }

  lemma {:induction false} MultisetReversed<T>(s: seq<T>)
    ensures multiset(Reversed(s)) == multiset(s)
  {
    if s != [] {
      MultisetReversed(s[..|s| - 1]);
      assert s == s[..|s| - 1] + [s[|s| - 1]];
    }
  }

  /** On first display each conference is listed by win-loss difference, then
      by points-for. */
  lemma DefaultRankOrder(scores: seq<PowerScore>, d: Division)
    ensures var t := DivisionTable(scores, InitialView, d);
      forall i, j :: 0 <= i < j < |t| ==>
        Rec(t[j]) < Rec(t[i]) || (Rec(t[j]) == Rec(t[i]) && t[j].pointsFor <= t[i].pointsFor)
  {
    DivisionTableOrder(scores, InitialView, d);
  }

  /** The seeds are the first three rows of the conference's default standings. */
  lemma SeedsAreDefaultTopThree(scores: seq<PowerScore>, d: Division)
    ensures SeedDivision(scores, d) == Take(DivisionTable(scores, InitialView, d), 3)
  {
    ComparatorOrder(Rank);
    StableSort.FilterSortBy(scores, InDivision(d), Comparator(Rank));
  }

  /** What sorting and taking three gives, for the rank order. */
  lemma SeedsTopOf(scores: seq<PowerScore>, d: Division)
    ensures var teams, seeds := Filter(scores, InDivision(d)), SeedDivision(scores, d);
      && |seeds| == (if |teams| <= 3 then |teams| else 3)
      && StableSort.Sorted(seeds, Comparator(Rank))
      && multiset(seeds) <= multiset(teams)
      && (forall x, y :: x in multiset(teams) - multiset(seeds) && y in seeds ==> !Comparator(Rank)(x, y))
  {
    ComparatorOrder(Rank);
    StableSort.TopOf(Filter(scores, InDivision(d)), 3, Comparator(Rank));
  }

  /** Every seed is a team of that conference. */
  lemma SeedsFromDivision(scores: seq<PowerScore>, d: Division)
    ensures forall x :: x in SeedDivision(scores, d) ==> x in scores && x.division == d
  {
    var teams := Filter(scores, InDivision(d));
    var sorted := StableSort.SortBy(teams, Comparator(Rank));
    var seeds := SeedDivision(scores, d);
    assert seeds == sorted[..|seeds|];
    TeamsOfDivision(scores, d);
    forall x | x in seeds ensures x in teams {
      assert x in multiset(sorted);
    }
  }

  /** The conference's teams are teams of `scores` with that division. */
  lemma TeamsOfDivision(scores: seq<PowerScore>, d: Division)
    ensures forall x :: x in Filter(scores, InDivision(d)) ==> x in scores && x.division == d
  {
    var teams := Filter(scores, InDivision(d));
    forall x | x in teams ensures x in scores && x.division == d {
      var k :| 0 <= k < |teams| && teams[k] == x;
      assert InDivision(d)(teams[k]);
    }
  }

  lemma RankComparator(a: PowerScore, b: PowerScore)
    ensures Comparator(Rank)(a, b) == RankBefore(a, b)
  {
  }

  /** The seeds are in rank order, and no unseeded team of the conference ranks
      ahead of a seed. */
  lemma SeedsRankFirst(scores: seq<PowerScore>, d: Division)
    ensures var teams, seeds := Filter(scores, InDivision(d)), SeedDivision(scores, d);
      && (forall i, j :: 0 <= i < j < |seeds| ==> !RankBefore(seeds[j], seeds[i]))
      && (forall x, y :: x in multiset(teams) - multiset(seeds) && y in seeds ==> !RankBefore(x, y))
  {
    var teams := Filter(scores, InDivision(d));
    var seeds := SeedDivision(scores, d);
    var before := Comparator(Rank);
    assert StableSort.Sorted(seeds, before) by { SeedsTopOf(scores, d); }
    assert forall x, y :: x in multiset(teams) - multiset(seeds) && y in seeds ==> !before(x, y) by {
      SeedsTopOf(scores, d);
    }
    forall i, j | 0 <= i < j < |seeds| ensures !RankBefore(seeds[j], seeds[i]) {
      RankComparator(seeds[j], seeds[i]);
    }
    forall x, y | x in multiset(teams) - multiset(seeds) && y in seeds ensures !RankBefore(x, y) {
      RankComparator(x, y);
    }
  }
}
