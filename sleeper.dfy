/** The records the league API delivers, as the engine sees them once fetched:
    members, rosters with their season counters, weekly matchup rows, and the
    per-league snapshot that pairs them. Every field the API may leave out is
    an `Option`, and the accessors below apply the source's `?? 0` defaults.
    Also here: how a roster id is turned into a display name. */
module Sleeper {
  import opened Base

  /** One of the two conferences used for standings and seeding. */
  datatype Division = NFC | AFC

  datatype Member = Member(userId: string, displayName: string)

  datatype Settings = Settings(wins: Option<nat>, losses: Option<nat>, fpts: Option<real>, fptsAgainst: Option<real>)

  datatype Roster = Roster(rosterId: int, ownerId: Option<string>, settings: Option<Settings>)

  /** `r.settings?.wins ?? 0` */
  function Wins(r: Roster): nat
  {
    if r.settings.Some? then r.settings.value.wins.GetOr(0) else 0
  }

  /** `r.settings?.losses ?? 0` */
  function Losses(r: Roster): nat
  {
    if r.settings.Some? then r.settings.value.losses.GetOr(0) else 0
  }

  /** `r.settings?.fpts ?? 0` */
  function Fpts(r: Roster): real
  {
    if r.settings.Some? then r.settings.value.fpts.GetOr(0.0) else 0.0
  }

  /** `r.settings?.fpts_against ?? 0` */
  function FptsAgainst(r: Roster): real
  {
    if r.settings.Some? then r.settings.value.fptsAgainst.GetOr(0.0) else 0.0
  }

  /** `r.owner_id` is truthy: present and not the empty string. */
  predicate HasOwner(r: Roster)
  {
    r.ownerId.Some? && r.ownerId.value != ""
  }

  /** One roster's line in one week's matchup list. */
  datatype MatchupRow = MatchupRow(rosterId: int, matchupId: Option<int>, points: Option<real>)

  /** `Number(m.points ?? 0)` */
  function Points(m: MatchupRow): real
  {
    m.points.GetOr(0.0)
  }

  /** What was fetched for one league id: its season and its member and roster lists. */
  datatype LeagueContext = LeagueContext(leagueId: string, season: Option<int>, users: seq<Member>, rosters: seq<Roster>)

  /** One week of one league's matchup rows. */
  datatype WeekMatchups = WeekMatchups(leagueId: string, season: Option<int>, week: int, matchups: seq<MatchupRow>)

  /** A team as the engine names it: the owner's display name (or the roster
      label) plus, when the league's season is known, that season. The source
      renders this as `name (season)` and strips the suffix again when it needs
      the base name; the model keeps the two parts apart. */
  datatype TeamName = TeamName(base: string, season: Option<int>)

  /** No roster after position `i` has id `rid`. */
  predicate NoRosterAfter(rosters: seq<Roster>, i: nat, rid: int)
  {
    forall j :: i < j < |rosters| ==> rosters[j].rosterId != rid
  }

  /** No roster before position `i` has id `rid`. */
  predicate NoRosterBefore(rosters: seq<Roster>, i: int, rid: int)
  {
    forall j :: 0 <= j < i && j < |rosters| ==> rosters[j].rosterId != rid
  }

  /** No member after position `i` has id `uid`. */
  predicate NoMemberAfter(users: seq<Member>, i: nat, uid: string)
  {
    forall j :: i < j < |users| ==> users[j].userId != uid
  }

  /** No member before position `i` has id `uid`. */
  predicate NoMemberBefore(users: seq<Member>, i: int, uid: string)
  {
    forall j :: 0 <= j < i && j < |users| ==> users[j].userId != uid
  }

  /** No context before position `i` has league id `leagueId`. */
  predicate NoContextBefore(contexts: seq<LeagueContext>, i: int, leagueId: string)
  {
    forall j :: 0 <= j < i && j < |contexts| ==> contexts[j].leagueId != leagueId
  }

  /** `new Map(rosters.map(r => [r.roster_id, r])).get(rid)`: the last roster with that id wins. */
  function RosterById(rosters: seq<Roster>, rid: int): (r: Option<Roster>)
    ensures r.Some? ==> r.value.rosterId == rid
    ensures r.Some? ==> exists i :: 0 <= i < |rosters| && rosters[i] == r.value && NoRosterAfter(rosters, i, rid)
    ensures r.None? ==> forall x :: x in rosters ==> x.rosterId != rid
  {
    if rosters == [] then None
    else if rosters[|rosters| - 1].rosterId == rid then Some(rosters[|rosters| - 1])
    else RosterById(rosters[..|rosters| - 1], rid)
  }

  /** `new Map(users.map(u => [u.user_id, u])).get(uid)`: the last member with that id wins. */
  function MemberById(users: seq<Member>, uid: string): (u: Option<Member>)
    ensures u.Some? ==> u.value.userId == uid
    ensures u.Some? ==> exists i :: 0 <= i < |users| && users[i] == u.value && NoMemberAfter(users, i, uid)
    ensures u.None? ==> forall x :: x in users ==> x.userId != uid
  {
    if users == [] then None
    else if users[|users| - 1].userId == uid then Some(users[|users| - 1])
    else MemberById(users[..|users| - 1], uid)
  }

  /** `users.find(u => u.user_id === uid)`: the first match. */
  function FindMember(users: seq<Member>, uid: string): (u: Option<Member>)
    ensures u.Some? ==> u.value.userId == uid
    ensures u.Some? ==> exists i :: 0 <= i < |users| && users[i] == u.value && NoMemberBefore(users, i, uid)
    ensures u.None? ==> forall x :: x in users ==> x.userId != uid
  {
    if users == [] then None
    else if users[0].userId == uid then Some(users[0])
    else FindMember(users[1..], uid)
  }

  /** `rosters.find(r => r.roster_id === rid)`: the first match. */
  function FindRoster(rosters: seq<Roster>, rid: int): (r: Option<Roster>)
    ensures r.Some? ==> r.value.rosterId == rid
    ensures r.Some? ==> exists i :: 0 <= i < |rosters| && rosters[i] == r.value && NoRosterBefore(rosters, i, rid)
    ensures r.None? ==> forall x :: x in rosters ==> x.rosterId != rid
  {
    if rosters == [] then None
    else if rosters[0].rosterId == rid then Some(rosters[0])
    else FindRoster(rosters[1..], rid)
  }

  /** `contexts.find(c => c.leagueId === leagueId)` */
  function FindContext(contexts: seq<LeagueContext>, leagueId: string): (c: Option<LeagueContext>)
    ensures c.Some? ==> c.value.leagueId == leagueId
    ensures c.Some? ==> exists i :: 0 <= i < |contexts| && contexts[i] == c.value && NoContextBefore(contexts, i, leagueId)
    ensures c.None? ==> forall x :: x in contexts ==> x.leagueId != leagueId
  {
    if contexts == [] then None
    else if contexts[0].leagueId == leagueId then Some(contexts[0])
    else FindContext(contexts[1..], leagueId)
  }

  /** `Roster ${rid}` */
  function RosterLabel(rid: int): string
  {
    "Roster " + IntToString(rid)
  }

  /** Distinct roster ids get distinct labels, so unowned rosters are never
      merged under one name. */
  lemma RosterLabelInjective(a: int, b: int)
    requires RosterLabel(a) == RosterLabel(b)
    ensures a == b
  {
    assert RosterLabel(a)[7..] == IntToString(a);
    assert RosterLabel(b)[7..] == IntToString(b);
    IntToStringInjective(a, b);
  }

  /** The display name of the member owning roster `rid`, or the roster label
      when the roster, its owner or a non-empty display name is missing. */
  function OwnerName(users: seq<Member>, rosters: seq<Roster>, rid: int): (name: string)
    ensures name != ""
    ensures name != RosterLabel(rid) ==>
      exists r, u :: r in rosters && u in users && r.rosterId == rid && HasOwner(r)
                     && u.userId == r.ownerId.value && u.displayName == name
    ensures var r := RosterById(rosters, rid);
      var u := if r.Some? && HasOwner(r.value) then MemberById(users, r.value.ownerId.value) else None;
      && (u.Some? && u.value.displayName != "" ==> name == u.value.displayName)
      && (!(u.Some? && u.value.displayName != "") ==> name == RosterLabel(rid))
  {
    var r := RosterById(rosters, rid);
    var u := if r.Some? && HasOwner(r.value) then MemberById(users, r.value.ownerId.value) else None;
    if u.Some? && u.value.displayName != "" then u.value.displayName else RosterLabel(rid)
  }

  /** Stated on the lists alone: when the last roster with id `rid` is owned,
      and the last member with the owner's id has a non-empty display name,
      that name is the team's; when no roster has the id, the label is. */
  lemma OwnerNameOfLast(users: seq<Member>, rosters: seq<Roster>, rid: int, i: nat, k: nat)
    requires i < |rosters| && rosters[i].rosterId == rid && NoRosterAfter(rosters, i, rid) && HasOwner(rosters[i])
    requires k < |users| && users[k].userId == rosters[i].ownerId.value && NoMemberAfter(users, k, users[k].userId)
    requires users[k].displayName != ""
    ensures OwnerName(users, rosters, rid) == users[k].displayName
  {
    var r := RosterById(rosters, rid).value;
    var i' :| 0 <= i' < |rosters| && rosters[i'] == r && NoRosterAfter(rosters, i', rid);
    assert i' == i;
    var u := MemberById(users, r.ownerId.value).value;
    var k' :| 0 <= k' < |users| && users[k'] == u && NoMemberAfter(users, k', u.userId);
    assert k' == k;
  }

  lemma OwnerNameUnknownRoster(users: seq<Member>, rosters: seq<Roster>, rid: int)
    requires forall r :: r in rosters ==> r.rosterId != rid
    ensures OwnerName(users, rosters, rid) == RosterLabel(rid)
  {
  }

  /** The name resolver built per league: the owner's name when the league's
      context was fetched, the roster label otherwise, tagged with the season. */
  function TeamNameOf(contexts: seq<LeagueContext>, leagueId: string, season: Option<int>, rid: int): (t: TeamName)
    ensures t.season == season && t.base != ""
    ensures FindContext(contexts, leagueId).Some? ==>
      var c := FindContext(contexts, leagueId).value;
      t.base == OwnerName(c.users, c.rosters, rid)
    ensures FindContext(contexts, leagueId).None? ==> t.base == RosterLabel(rid)
  {
    var ctx := FindContext(contexts, leagueId);
    var base := if ctx.Some? then OwnerName(ctx.value.users, ctx.value.rosters, rid) else RosterLabel(rid);
    TeamName(base, season)
  }
}
