/** The two week computations driven by the league-wide state record: the
    current week shown to users (where 0 means "unknown"), and how many weeks
    of the current season the history collector scans. */
module Weeks {
  import opened Base

  /** The league-wide state: two fields that may carry the week number. */
  datatype NflState = NflState(week: Option<int>, displayWeek: Option<int>)

  /** Weeks in a regular fantasy season; past seasons are scanned in full. */
  const SeasonWeeks: int := 18

  /** `x` is truthy: present and not zero. */
  predicate Truthy(x: Option<int>)
  {
    x.Some? && x.value != 0
  }

  /** `Number(state?.week || state?.display_week || fallback)` */
  function WeekField(state: Option<NflState>, fallback: int): (w: int)
    ensures state.Some? && Truthy(state.value.week) ==> w == state.value.week.value
    ensures state.Some? && !Truthy(state.value.week) && Truthy(state.value.displayWeek) ==> w == state.value.displayWeek.value
    ensures (state.None? || (!Truthy(state.value.week) && !Truthy(state.value.displayWeek))) ==> w == fallback
  {
    if state.Some? && Truthy(state.value.week) then state.value.week.value
    else if state.Some? && Truthy(state.value.displayWeek) then state.value.displayWeek.value
    else fallback
  }

  /** The current week, or `None` ("unknown") when no positive week was reported. */
  function CurrentWeek(state: Option<NflState>): (r: Option<int>)
    ensures r.Some? ==> r.value >= 1 && r.value == WeekField(state, 0)
    ensures r.None? <==> WeekField(state, 0) <= 0
  {
    var w := WeekField(state, 0);
    if w > 0 then Some(w) else None
  }

  /** `Math.max(1, Math.min(18, nflWeek - 1))`, with a missing week read as 1. */
  function CurrentEndWeek(state: Option<NflState>): (e: int)
  {
    var w := WeekField(state, 1);
    var capped := if w - 1 < SeasonWeeks then w - 1 else SeasonWeeks;
    if capped < 1 then 1 else capped
  }

  /** The last week scanned for a league: only completed weeks of the current
      league, every week of a past one. */
  function EndWeek(leagueId: string, currentLeagueId: string, state: Option<NflState>): int
  {
    if leagueId == currentLeagueId then CurrentEndWeek(state) else SeasonWeeks
  }

  /** `Array.from({ length: endWeek }, (_, i) => i + 1)` */
  function WeeksUpTo(endWeek: nat): (ws: seq<int>)
    ensures |ws| == endWeek
    ensures forall i :: 0 <= i < |ws| ==> ws[i] == i + 1
  {
    if endWeek == 0 then [] else WeeksUpTo(endWeek - 1) + [endWeek]
  }

  /** The clamp keeps the end week within one season, never below week 1, and
      otherwise stops at the week before the reported one (the last completed week). */
  lemma CurrentEndWeekClamp(state: Option<NflState>)
    ensures 1 <= CurrentEndWeek(state) <= SeasonWeeks
    ensures var w := WeekField(state, 1);
      && (2 <= w <= SeasonWeeks + 1 <==> CurrentEndWeek(state) == w - 1)
      && (w <= 2 ==> CurrentEndWeek(state) == 1)
      && (w >= SeasonWeeks + 1 ==> CurrentEndWeek(state) == SeasonWeeks)
  {
  }

  /** Every week the collector asks for lies in 1..18, and for the current
      league strictly before the reported week whenever that week is past week 1. */
  lemma ScannedWeeksCompleted(leagueId: string, currentLeagueId: string, state: Option<NflState>)
    ensures var ws := WeeksUpTo(EndWeek(leagueId, currentLeagueId, state));
      && |ws| >= 1
      && (forall i :: 0 <= i < |ws| ==> 1 <= ws[i] <= SeasonWeeks)
      && (leagueId == currentLeagueId && WeekField(state, 1) >= 2 ==>
            forall i :: 0 <= i < |ws| ==> ws[i] < WeekField(state, 1))
  {
    CurrentEndWeekClamp(state);
  }
}
