/** Power scores: one row per league member, a 0.7 / 0.3 blend of points-for
    as a percentage of the league's best points-for and of win percentage,
    with the member's conference taken from the manual table, then the demo
    table, then a random draw. Rows are ordered by score, highest first. */
module PowerScores {
  import opened Base
  import opened Sleeper
  import StableSort

  /** `MANUAL_DIVISIONS`: the league's owners and their conferences. */
  const ManualDivisions: map<string, Division> := map[
    "Smittytribe27" := AFC, "Savro24" := AFC, "twillie391" := NFC, "AlanCarignan" := NFC,
    "cincy_kid" := NFC, "PAHTNAH" := NFC, "KShrewsberry" := NFC, "BillsMafia1480" := NFC,
    "JeffPeterson20" := AFC, "BReyes" := AFC, "CamWells16" := AFC, "brandishrewsberry" := AFC
  ]

  /** `demoDivisionMap`: the conferences of the demo teams. */
  const DemoDivisions: map<string, Division> := map[
    "Obi" := NFC, "Ram" := NFC, "Prestige" := NFC, "Be" := NFC, "Papa" := NFC, "Lickety" := NFC,
    "Sneak" := AFC, "Boom" := AFC, "Huck" := AFC, "White" := AFC, "You" := AFC, "Many" := AFC
  ]

  datatype PowerScore = PowerScore(team: string, score: real, wins: nat, losses: nat,
                                   pointsFor: real, pointsAgainst: real, avgPerWeek: real, division: Division)

  /** No roster after position `i` is owned by `uid`. */
  predicate NotOwnedAfter(rosters: seq<Roster>, i: nat, uid: string)
  {
    forall j :: i < j < |rosters| ==> !(HasOwner(rosters[j]) && rosters[j].ownerId.value == uid)
  }

  /** `byOwner[uid]`: the last roster whose (truthy) owner is `uid`. */
  function RosterOfOwner(rosters: seq<Roster>, uid: string): (r: Option<Roster>)
    ensures r.Some? ==> HasOwner(r.value) && r.value.ownerId.value == uid
    ensures r.Some? ==> exists i :: 0 <= i < |rosters| && rosters[i] == r.value && NotOwnedAfter(rosters, i, uid)
    ensures r.None? ==> forall x :: x in rosters && HasOwner(x) ==> x.ownerId.value != uid
  {
    if rosters == [] then None
    else
      var last := rosters[|rosters| - 1];
      if HasOwner(last) && last.ownerId.value == uid then Some(last)
      else RosterOfOwner(rosters[..|rosters| - 1], uid)
  }

  /** The `forEach` that fills `byOwner`: later rosters overwrite earlier ones. */
  method IndexByOwner(rosters: seq<Roster>) returns (byOwner: map<string, Roster>)
    ensures forall uid :: RosterOfOwner(rosters, uid) == (if uid in byOwner then Some(byOwner[uid]) else None)
  {
    byOwner := map[];
    for i := 0 to |rosters|
      invariant forall uid :: RosterOfOwner(rosters[..i], uid) == (if uid in byOwner then Some(byOwner[uid]) else None)
    {
      assert rosters[..i + 1][..i] == rosters[..i];
      var r := rosters[i];
      if r.ownerId.Some? && r.ownerId.value != "" {
        byOwner := byOwner[r.ownerId.value := r];
      }
    }
    assert rosters[..|rosters|] == rosters;
  }

  /** `x.settings?.fpts ?? 1`: a roster without points counts as 1 towards the maximum. */
  function FptsOrOne(r: Roster): real
  {
    if r.settings.Some? then r.settings.value.fpts.GetOr(1.0) else 1.0
  }

  /** `Math.max(1, ...rosters.map(x => x.settings?.fpts ?? 1))` */
  function MaxPF(rosters: seq<Roster>): (m: real)
    ensures m >= 1.0
    ensures forall x :: x in rosters ==> FptsOrOne(x) <= m
    ensures m == 1.0 || exists x :: x in rosters && FptsOrOne(x) == m
  {
    if rosters == [] then 1.0
    else
      var rest := MaxPF(rosters[..|rosters| - 1]);
      var last := FptsOrOne(rosters[|rosters| - 1]);
      assert rosters == rosters[..|rosters| - 1] + [rosters[|rosters| - 1]];
      if last > rest then last else rest
  }

  /** Win percentage: 50 before any game, else the share of games won, times 100. */
  function WinPct(wins: nat, losses: nat): (pct: real)
    ensures wins + losses == 0 ==> pct == 50.0
    ensures wins + losses > 0 ==> pct * ((wins + losses) as real) == (wins as real) * 100.0
    ensures 0.0 <= pct <= 100.0
  {
    if wins + losses > 0 then (wins as real) / ((wins + losses) as real) * 100.0 else 50.0
  }

  /** `(pointsFor / maxPF) * 100`: points-for as a percentage of the league's best. */
  function PfPct(pointsFor: real, maxPF: real): (p: real)
    requires maxPF >= 1.0
    ensures p * maxPF == pointsFor * 100.0
    ensures 0.0 <= pointsFor <= maxPF ==> 0.0 <= p <= 100.0
    ensures pointsFor == maxPF ==> p == 100.0
  {
    QuotientTimesDivisor(pointsFor, maxPF);
    QuotientTimesDivisor(maxPF, maxPF);
    if 0.0 <= pointsFor <= maxPF then PercentOfMax(pointsFor, maxPF); pointsFor / maxPF * 100.0
    else pointsFor / maxPF * 100.0
  }

  /** `0.7 * pfPct + 0.3 * winPct` */
  function Blend(pfPct: real, winPct: real): (score: real)
    ensures 0.0 <= pfPct <= 100.0 && 0.0 <= winPct <= 100.0 ==> 0.0 <= score <= 100.0
    ensures pfPct <= 100.0 && winPct <= 100.0 ==> (score == 100.0 <==> pfPct == 100.0 && winPct == 100.0)
  {
    0.7 * pfPct + 0.3 * winPct
  }

  /** Raising either percentage never lowers the score. */
  lemma BlendMonotone(p: real, w: real, p': real, w': real)
    requires p <= p' && w <= w'
    ensures Blend(p, w) <= Blend(p', w) <= Blend(p', w')
    ensures Blend(p, w) <= Blend(p, w') <= Blend(p', w')
  {
  }

  /** Points-for weighs 0.7 and win percentage 0.3: the score moves by those
      fractions of a change in either. */
  lemma BlendWeights(p: real, w: real, d: real)
    ensures Blend(p + d, w) == Blend(p, w) + 0.7 * d
    ensures Blend(p, w + d) == Blend(p, w) + 0.3 * d
    ensures Blend(0.0, 0.0) == 0.0
  {
  }

  /** `Math.max(1, wins + losses)` */
  function GamesPlayed(wins: nat, losses: nat): (g: nat)
    ensures g >= 1 && g >= wins + losses
    ensures wins + losses > 0 ==> g == wins + losses
  {
    if wins + losses > 1 then wins + losses else 1
  }

  /** `pointsFor / games`: the points per game played, counting at least one game. */
  function AvgPerWeek(pointsFor: real, wins: nat, losses: nat): (avg: real)
    ensures avg * (GamesPlayed(wins, losses) as real) == pointsFor
    ensures wins + losses == 0 ==> avg == pointsFor
  {
    var g := GamesPlayed(wins, losses) as real;
    QuotientTimesDivisor(pointsFor, g);
    pointsFor / g
  }

  /** `manual ?? fallback ?? draw` */
  function DivisionOf(name: string, draw: Division): Division
  {
    if name in ManualDivisions then ManualDivisions[name]
    else if name in DemoDivisions then DemoDivisions[name]
    else draw
  }

  /** The row of one member. */
  function Entry(u: Member, rosters: seq<Roster>, draw: Division): PowerScore
  {
    var r := RosterOfOwner(rosters, u.userId);
    var wins := if r.Some? then Wins(r.value) else 0;
    var losses := if r.Some? then Losses(r.value) else 0;
    var pointsFor := if r.Some? then Fpts(r.value) else 0.0;
    var pointsAgainst := if r.Some? then FptsAgainst(r.value) else 0.0;
    var score := Blend(PfPct(pointsFor, MaxPF(rosters)), WinPct(wins, losses));
    PowerScore(u.displayName, score, wins, losses, pointsFor, pointsAgainst,
               AvgPerWeek(pointsFor, wins, losses), DivisionOf(u.displayName, draw))
  }

  /** `users.map(...)`; the random draw for the member at position `i` is `draw(i)`. */
  function Entries(users: seq<Member>, rosters: seq<Roster>, draw: nat -> Division): (es: seq<PowerScore>)
    ensures |es| == |users|
    ensures forall i :: 0 <= i < |users| ==> es[i] == Entry(users[i], rosters, draw(i))
  {
    seq(|users|, i requires 0 <= i < |users| => Entry(users[i], rosters, draw(i)))
  }

  /** `(a, b) => b.score - a.score`: higher scores first. */
  predicate HigherScore(a: PowerScore, b: PowerScore)
  {
    a.score > b.score
  }

  /** The memo: nothing until both lists are loaded, else the rows by score. */
  function PowerScoresOf(users: Option<seq<Member>>, rosters: Option<seq<Roster>>, draw: nat -> Division): seq<PowerScore>
  {
    if users.None? || rosters.None? then []
    else StableSort.SortBy(Entries(users.value, rosters.value, draw), HigherScore)
  }

  /** The rows with score `x`, in order. */
  function WithScore(ps: seq<PowerScore>, x: real): seq<PowerScore>
  {
    Filter(ps, (e: PowerScore) => e.score == x)
  }

  /** Nothing is shown until both lists are loaded; then every member has exactly
      one row, the rows are ordered by score, highest first, and members with
      equal scores keep the order of the member list. */
  lemma PowerScoresShape(users: Option<seq<Member>>, rosters: Option<seq<Roster>>, draw: nat -> Division)
    ensures users.None? || rosters.None? ==> PowerScoresOf(users, rosters, draw) == []
    ensures users.Some? && rosters.Some? ==>
      var ps, es := PowerScoresOf(users, rosters, draw), Entries(users.value, rosters.value, draw);
      && |ps| == |users.value|
      && multiset(ps) == multiset(es)
      && (forall i :: 0 <= i < |users.value| ==> Entry(users.value[i], rosters.value, draw(i)) in ps)
      && (forall i, j :: 0 <= i < j < |ps| ==> ps[j].score <= ps[i].score)
      && (forall x: real :: WithScore(ps, x) == WithScore(es, x))
  {
    if users.Some? && rosters.Some? {
      var es := Entries(users.value, rosters.value, draw);
      var ps := StableSort.SortBy(es, HigherScore);
      assert ps == PowerScoresOf(users, rosters, draw);
      SortedByScore(es, ps);
      forall i | 0 <= i < |users.value| ensures Entry(users.value[i], rosters.value, draw(i)) in ps {
        assert es[i] in multiset(es);
      }
    }
  }

  /** Sorting by `b.score - a.score` orders by score, highest first, and keeps
      the relative order of equal scores. */
  lemma SortedByScore(es: seq<PowerScore>, ps: seq<PowerScore>)
    requires ps == StableSort.SortBy(es, HigherScore)
    ensures forall i, j :: 0 <= i < j < |ps| ==> ps[j].score <= ps[i].score
    ensures forall x: real :: WithScore(ps, x) == WithScore(es, x)
  {
    assert StableSort.StrictWeakOrder(HigherScore);
    StableSort.SortBySorted(es, HigherScore);
    forall i, j | 0 <= i < j < |ps| ensures ps[j].score <= ps[i].score {
      assert !HigherScore(ps[j], ps[i]);
    }
    forall x: real ensures WithScore(ps, x) == WithScore(es, x) {
      StableSort.Stable(es, (e: PowerScore) => e.score == x, HigherScore);
    }
  }

  /** A member without a roster gets zero counters, and so a score of 0.7 * 0 + 0.3 * 50. */
  lemma EntryWithoutRoster(u: Member, rosters: seq<Roster>, draw: Division)
    requires RosterOfOwner(rosters, u.userId).None?
    ensures var e := Entry(u, rosters, draw);
      e.team == u.displayName && e.wins == 0 && e.losses == 0 && e.pointsFor == 0.0 && e.pointsAgainst == 0.0
      && e.avgPerWeek == 0.0 && e.score == 15.0
  {
    var m := MaxPF(rosters);
    assert 0.0 / m == 0.0;
  }

  /** A member with a roster gets its counters, and points per game played. */
  lemma EntryWithRoster(u: Member, rosters: seq<Roster>, draw: Division)
    requires RosterOfOwner(rosters, u.userId).Some?
    ensures var e, r := Entry(u, rosters, draw), RosterOfOwner(rosters, u.userId).value;
      && e.team == u.displayName
      && e.wins == Wins(r) && e.losses == Losses(r) && e.pointsFor == Fpts(r) && e.pointsAgainst == FptsAgainst(r)
      && e.avgPerWeek == AvgPerWeek(Fpts(r), Wins(r), Losses(r))
  {
  }

  lemma QuotientTimesDivisor(x: real, d: real)
    requires d > 0.0
    ensures x / d * d == x
  {
  }

  /** The conference comes from the manual table, then the demo table, and
      only then from the draw. */
  lemma EntryDivision(u: Member, rosters: seq<Roster>, draw: Division)
    ensures var e := Entry(u, rosters, draw);
      && (u.displayName in ManualDivisions ==> e.division == ManualDivisions[u.displayName])
      && (u.displayName !in ManualDivisions && u.displayName in DemoDivisions ==> e.division == DemoDivisions[u.displayName])
      && (u.displayName !in ManualDivisions && u.displayName !in DemoDivisions ==> e.division == draw)
  {
  }

  /** Every owner in the manual table gets their conference from it, whatever
      the draw. */
  lemma ManualOwnersNeverDrawn(u: Member, rosters: seq<Roster>, d1: Division, d2: Division)
    requires u.displayName in ManualDivisions
    ensures Entry(u, rosters, d1) == Entry(u, rosters, d2)
  {
  }

  /** `pf / maxPF * 100` lies in [0, 100] when `0 <= pf <= maxPF`. */
  lemma PercentOfMax(pf: real, maxPF: real)
    requires maxPF >= 1.0 && 0.0 <= pf <= maxPF
    ensures 0.0 <= pf / maxPF * 100.0 <= 100.0
  {
    assert pf / maxPF <= maxPF / maxPF;
  }

  /** With no negative points anywhere, every score lies between 0 and 100. */
  lemma ScoreInRange(u: Member, rosters: seq<Roster>, draw: Division)
    requires forall x :: x in rosters ==> Fpts(x) >= 0.0
    ensures 0.0 <= Entry(u, rosters, draw).score <= 100.0
  {
    var r := RosterOfOwner(rosters, u.userId);
    if r.Some? {
      assert FptsOrOne(r.value) <= MaxPF(rosters);
    }
  }

  /** The owner with the league's highest points-for and no losses scores 100. */
  lemma TopUnbeatenScoresHundred(u: Member, rosters: seq<Roster>, draw: Division)
    requires RosterOfOwner(rosters, u.userId).Some?
    requires var r := RosterOfOwner(rosters, u.userId).value;
      r.settings.Some? && r.settings.value.fpts.Some? && Fpts(r) == MaxPF(rosters) && Wins(r) > 0 && Losses(r) == 0
    ensures Entry(u, rosters, draw).score == 100.0
  {
    var r := RosterOfOwner(rosters, u.userId).value;
    assert WinPct(Wins(r), 0) * (Wins(r) as real) == (Wins(r) as real) * 100.0;
  }
}
