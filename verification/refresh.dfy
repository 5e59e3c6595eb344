/**
 * The refresh orchestration of LbWidget as explicit transitions: the outer
 * competition loop (activeDataRefresh), the inner leaderboard-data loop
 * (leaderboardDataRefresh), the selection chain between them, opt-in
 * revalidation and stopActivity. Each handler runs one synchronous stretch
 * of the event loop and returns the requests it sends and the view updates
 * it triggers; replies and timer expiries arrive later as events.
 */
module Refresh {
  import opened Types
  import Selection
  import Timers
  import OptIn

  /** Delay of the outer loop (competition.refreshIntervalMillis). */
  const CompetitionRefreshMillis: nat := 10000
  /** Delay of the inner loop (leaderboard.refreshIntervalMillis). */
  const LeaderboardRefreshMillis: nat := 3000

  /** What runs when leaderboard rows arrive. */
  datatype AfterRows =
    | ReloadViews            // reload the visible views
    | ReloadMain             // reload the main widget's leaderboard only
    | ReloadViewsAndRestart  // reload the views, then restart the inner loop

  /** Why a competition's details were requested: to show it, or to see whether an opt-in took. */
  datatype DetailPurpose = ForSelection | ForOptInCheck(button: OptInButton)

  /** Requests sent to the gateway. */
  datatype Request =
    | AvailableCompetitions
    | FinishedCompetitions
    | CompetitionDetail(id: Option<Id>, purpose: DetailPurpose)
    | LeaderboardRows(contestId: Id, limit: nat, next: AfterRows)
    | OptInMember(competitionId: Option<Id>, button: OptInButton)

  /** Calls into the views, which are not modelled. */
  datatype ViewUpdate =
    | LoadScoreBoard          // miniScoreBoard.loadScoreBoard
    | LoadMainLeaderboard     // mainWidget.loadLeaderboard
    | ClearViews              // the views' clearAll
    | OptInButtonState        // mainWidget.competitionDetailsOptInButtonState
    | LoadCompetitionDetails  // mainWidget.loadCompetitionDetails

  /** The widget state the refresh logic reads and writes. */
  datatype Widget = Widget(
    tournaments: Selection.Tournaments,
    competition: Selection.CompetitionState,
    timers: Timers.Timers,
    revalidations: nat,
    miniActive: bool,
    mainActive: bool,
    showFinished: bool,
    fullLeaderboardSize: nat,
    leaderboardData: seq<Row>)

  ghost predicate Valid(w: Widget)
  {
    Timers.Valid(w.timers)
  }

  /** The result of one synchronous stretch; `threw` marks an uncaught TypeError. */
  datatype Step = Step(w: Widget, requests: seq<Request>, views: seq<ViewUpdate>, threw: bool)

  // ---------------------------------------------------------------------
  // Eligibility

  /**
   * The outer loop's rule: rows are polled for a competition that does not
   * require opt-in or that the member has opted in to.
   */
  predicate Eligible(ac: Option<Competition>): (b: bool)
    ensures b ==> ac.Some?
    ensures ac.Some? && ac.value.optinRequired == IsFalse ==> b
    ensures ac.Some? && ac.value.optinRequired != IsFalse ==> (b <==> ac.value.optin == IsTrue)
  {
    ac.Some? && (ac.value.optinRequired == IsFalse || ac.value.optin == IsTrue)
  }

  datatype Check = Yes | No | TypeError

  /**
   * The inner loop's test. Its second disjunct reads `optin` without a null
   * check, so with no active competition it throws instead of answering.
   */
  function InnerCheck(ac: Option<Competition>): (r: Check)
    ensures r == TypeError <==> ac.None?
    ensures ac.Some? ==> (r == Yes <==> Eligible(ac))
  {
    if ac.Some? && ac.value.optinRequired == IsFalse then Yes
    else if ac.None? then TypeError
    else if ac.value.optin == IsTrue then Yes
    else No
  }

  /** The `_limit` of a leaderboard request: 0 while the mini scoreboard is shown. */
  function RowLimit(w: Widget): nat
  {
    if w.miniActive then 0 else w.fullLeaderboardSize
  }

  /**
   * getLeaderboardData: a request for the active contest's rows, or none
   * when there is no active contest (the callback then runs at once).
   */
  function RowsRequest(w: Widget, next: AfterRows): (r: Option<Request>)
    ensures r.Some? <==> w.competition.activeContestId.Some?
    ensures r.Some? ==> r.value == LeaderboardRows(w.competition.activeContestId.value, RowLimit(w), next)
  {
    match w.competition.activeContestId
    case None => None
    case Some(id) => Some(LeaderboardRows(id, RowLimit(w), next))
  }

  function VisibleReloads(w: Widget): seq<ViewUpdate>
  {
    (if w.miniActive then [LoadScoreBoard] else []) + (if w.mainActive then [LoadMainLeaderboard] else [])
  }

  // ---------------------------------------------------------------------
  // The inner loop

  /**
   * leaderboardDataRefresh: clear the loop's slot, poll rows when eligible,
   * arm the slot again. A TypeError leaves the slot cleared: the loop stops.
   */
  function LeaderboardDataRefresh(w: Widget): (r: Step)
    requires Valid(w)
    ensures Valid(r.w)
    ensures r.w == w.(timers := r.w.timers)
    ensures r.threw <==> w.competition.activeCompetition.None?
    ensures !r.threw ==> |Timers.PendingFor(r.w.timers, Timers.LeaderboardDataSlot)| == 1
    ensures r.threw ==> Timers.PendingFor(r.w.timers, Timers.LeaderboardDataSlot) == {}
    ensures |r.requests| > 0 <==> Eligible(w.competition.activeCompetition) && w.competition.activeContestId.Some?
    ensures forall q :: q in r.requests ==> q == LeaderboardRows(w.competition.activeContestId.value, RowLimit(w), ReloadViews)
    ensures forall id :: id in w.timers.pending && w.timers.pending[id] != Timers.Loop(Timers.LeaderboardDataSlot) ==>
              id in r.w.timers.pending && r.w.timers.pending[id] == w.timers.pending[id]
  {
    var cleared := Timers.Clear(w.timers, Timers.LeaderboardDataSlot);
    match InnerCheck(w.competition.activeCompetition)
    case TypeError => Step(w.(timers := cleared), [], [], true)
    case No => Step(w.(timers := Timers.Rearm(w.timers, Timers.LeaderboardDataSlot)), [], [], false)
    case Yes =>
      var w' := w.(timers := Timers.Rearm(w.timers, Timers.LeaderboardDataSlot));
      match RowsRequest(w, ReloadViews)
      case Some(q) => Step(w', [q], [], false)
      case None => Step(w', [], VisibleReloads(w), false)
  }

  // ---------------------------------------------------------------------
  // The outer loop

  /**
   * activeDataRefresh, synchronous part: clear the loop's slot, ask for the
   * available competitions and arm the slot again at once (the next cycle is
   * timed from the call, not from the end of the chain).
   */
  function ActiveDataRefresh(w: Widget): (r: Step)
    requires Valid(w)
    ensures Valid(r.w) && !r.threw
    ensures r.requests == [AvailableCompetitions] && r.views == []
    ensures |Timers.PendingFor(r.w.timers, Timers.CompetitionSlot)| == 1
    ensures r.w == w.(timers := r.w.timers)
    ensures forall id :: id in w.timers.pending && w.timers.pending[id] != Timers.Loop(Timers.CompetitionSlot) ==>
              id in r.w.timers.pending && r.w.timers.pending[id] == w.timers.pending[id]
  {
    Step(w.(timers := Timers.Rearm(w.timers, Timers.CompetitionSlot)), [AvailableCompetitions], [], false)
  }

  /**
   * deactivateCompetitionsAndLeaderboards: clears leaderboard.refreshInterval
   * (not the inner loop's slot) and the main widget's clearAll marks it
   * inactive. The mini scoreboard's own clearAll is outside this model, so
   * its flag is kept.
   */
  function Deactivate(w: Widget): (r: Widget)
    requires Valid(w)
    ensures Valid(r) && !r.mainActive
    ensures Timers.PendingFor(r.timers, Timers.LeaderboardSlot) == {}
    ensures forall id :: id in r.timers.pending <==>
              id in w.timers.pending && w.timers.pending[id] != Timers.Loop(Timers.LeaderboardSlot)
    ensures r == w.(timers := r.timers, mainActive := false)
  {
    w.(timers := Timers.Clear(w.timers, Timers.LeaderboardSlot), mainActive := false)
  }

  /**
   * prepareActiveCompetition inside the chain: a selection asks for the
   * competition's details; no candidate deactivates, which ends the chain.
   */
  function PrepareStep(w: Widget): (r: Step)
    requires Valid(w)
    ensures Valid(r.w) && !r.threw
    ensures var p := Selection.Prepare(w.tournaments, w.competition);
            && r.w.tournaments == p.tournaments && r.w.competition == p.state
            && (p.selection.Selected? ==>
                  r.requests == [CompetitionDetail(Some(p.selection.competition.id), ForSelection)]
                  && r.views == [] && r.w.timers == w.timers)
            && (p.selection.Selected? ==> r.w.mainActive == w.mainActive)
            && (p.selection.Deactivated? ==> r.requests == [] && r.views == [ClearViews] && !r.w.mainActive)
    ensures r.w.miniActive == w.miniActive && r.w.leaderboardData == w.leaderboardData
    ensures Timers.PendingFor(r.w.timers, Timers.LeaderboardDataSlot) == Timers.PendingFor(w.timers, Timers.LeaderboardDataSlot)
    ensures Timers.PendingFor(r.w.timers, Timers.CompetitionSlot) == Timers.PendingFor(w.timers, Timers.CompetitionSlot)
  {
    var p := Selection.Prepare(w.tournaments, w.competition);
    var w' := w.(tournaments := p.tournaments, competition := p.state);
    match p.selection
    case Deactivated =>
      Step(Deactivate(w'), [], [ClearViews], false)
    case Selected(c) =>
      Step(w', [CompetitionDetail(Some(c.id), ForSelection)], [], false)
  }

  /** The available-competitions reply: bucket, then fetch finished ones or go on to selection. */
  function OnAvailable(w: Widget, fetched: seq<Competition>): (r: Step)
    requires Valid(w)
    ensures Valid(r.w) && !r.threw
    ensures w.showFinished ==> r.requests == [FinishedCompetitions] && r.w.timers == w.timers
    ensures w.showFinished ==> r.w.competition == w.competition && r.w.tournaments == Selection.BucketAvailable(w.tournaments, fetched)
    ensures !w.showFinished ==>
              var p := Selection.Prepare(Selection.BucketAvailable(w.tournaments, fetched), w.competition);
              && r.w.tournaments == p.tournaments && r.w.competition == p.state
              && (p.selection.Selected? ==> r.requests == [CompetitionDetail(Some(p.selection.competition.id), ForSelection)])
              && (p.selection.Deactivated? ==> r.requests == [] && r.views == [ClearViews] && !r.w.mainActive)
  {
    var w' := w.(tournaments := Selection.BucketAvailable(w.tournaments, fetched));
    if w.showFinished then Step(w', [FinishedCompetitions], [], false) else PrepareStep(w')
  }

  /** The finished-competitions reply: bucket, then selection. */
  function OnFinished(w: Widget, fetched: seq<Competition>): (r: Step)
    requires Valid(w)
    ensures Valid(r.w) && !r.threw
    ensures var p := Selection.Prepare(Selection.BucketFinished(w.tournaments, fetched), w.competition);
            && r.w.tournaments == p.tournaments && r.w.competition == p.state
            && (p.selection.Selected? ==> r.requests == [CompetitionDetail(Some(p.selection.competition.id), ForSelection)])
            && (p.selection.Deactivated? ==> r.requests == [] && r.views == [ClearViews] && !r.w.mainActive)
  {
    PrepareStep(w.(tournaments := Selection.BucketFinished(w.tournaments, fetched)))
  }

  /**
   * The callback of prepareActiveCompetition once the details are stored:
   * clear leaderboard.refreshInterval; with a visible view, poll rows when
   * eligible and restart the inner loop when they arrive; when not eligible
   * reload the scoreboard, still poll rows for a visible main widget, and
   * restart the inner loop at once.
   */
  function AfterSelection(w: Widget): (r: Step)
    requires Valid(w)
    ensures Valid(r.w)
    ensures r.w == w.(timers := r.w.timers)
    ensures (w.miniActive || w.mainActive) && Eligible(w.competition.activeCompetition) && w.competition.activeContestId.Some? ==>
              r.requests == [LeaderboardRows(w.competition.activeContestId.value, RowLimit(w), ReloadViewsAndRestart)]
              && r.views == [] && !r.threw
    ensures !(w.miniActive || w.mainActive) ==> r.requests == [] && r.views == [] && !r.threw
    ensures w.miniActive && !w.mainActive ==>
              ((exists q :: q in r.requests && q.LeaderboardRows?) <==>
                 Eligible(w.competition.activeCompetition) && w.competition.activeContestId.Some?)
    ensures (exists q :: q in r.requests && q.LeaderboardRows?) ==>
              && w.competition.activeContestId.Some?
              && (w.miniActive || w.mainActive)
              && (Eligible(w.competition.activeCompetition) || w.mainActive)
    ensures r.threw ==> w.competition.activeCompetition.None?
    ensures (w.miniActive || w.mainActive) && w.competition.activeCompetition.Some? && !Eligible(w.competition.activeCompetition) ==>
              !r.threw && |Timers.PendingFor(r.w.timers, Timers.LeaderboardDataSlot)| == 1
  {
    var w0 := w.(timers := Timers.Clear(w.timers, Timers.LeaderboardSlot));
    if !(w.miniActive || w.mainActive) then Step(w0, [], [], false)
    else if Eligible(w.competition.activeCompetition) then
      match RowsRequest(w0, ReloadViewsAndRestart)
      case Some(q) => Step(w0, [q], [], false)
      case None =>
        var inner := LeaderboardDataRefresh(w0);
        Step(inner.w, inner.requests, VisibleReloads(w0) + inner.views, inner.threw)
    else
      var scoreBoard := if w.miniActive then [LoadScoreBoard] else [];
      var mainRows := if w.mainActive then RowsRequest(w0, ReloadMain) else None;
      var mainNow := if w.mainActive && mainRows.None? then [LoadMainLeaderboard] else [];
      var inner := LeaderboardDataRefresh(w0);
      Step(inner.w,
           (if mainRows.Some? then [mainRows.value] else []) + inner.requests,
           scoreBoard + mainNow + inner.views,
           inner.threw)
  }

  /** The competition-detail reply for the selection: setActiveCompetition, then the callback. */
  function OnSelectedDetail(w: Widget, detail: Competition): (r: Step)
    requires Valid(w)
    ensures Valid(r.w)
    ensures r.w.competition == Selection.SetActiveCompetition(w.competition, detail)
    ensures !r.threw
    ensures !(w.miniActive || w.mainActive) ==>
              && r.requests == [] && r.views == []
              && Timers.PendingFor(r.w.timers, Timers.LeaderboardDataSlot) == Timers.PendingFor(w.timers, Timers.LeaderboardDataSlot)
    ensures (w.miniActive || w.mainActive) && Eligible(Some(detail)) && r.w.competition.activeContestId.Some? ==>
              r.requests == [LeaderboardRows(r.w.competition.activeContestId.value, RowLimit(w), ReloadViewsAndRestart)]
    ensures (w.miniActive || w.mainActive) && !Eligible(Some(detail)) ==>
              |Timers.PendingFor(r.w.timers, Timers.LeaderboardDataSlot)| == 1
  {
    AfterSelection(w.(competition := Selection.SetActiveCompetition(w.competition, detail)))
  }

  /** Leaderboard rows arrived: store them and run what the request asked for. */
  function OnRows(w: Widget, rows: seq<Row>, next: AfterRows): (r: Step)
    requires Valid(w)
    ensures Valid(r.w)
    ensures r.w.leaderboardData == rows
     ensures next != ReloadViewsAndRestart ==> r.w.timers == w.timers && r.requests == []
  {
    var w' := w.(leaderboardData := rows);
    match next
    case ReloadViews => Step(w', [], VisibleReloads(w'), false)
    case ReloadMain => Step(w', [], [LoadMainLeaderboard], false)
    case ReloadViewsAndRestart =>
      var inner := LeaderboardDataRefresh(w');
      Step(inner.w, inner.requests, VisibleReloads(w') + inner.views, inner.threw)
  }

  // ---------------------------------------------------------------------
  // Opt-in

  /** optInMemberToActiveCompetition: a click on an opt-in button asks the gateway to opt the member in. */
  function RequestOptIn(w: Widget, button: OptInButton): (r: Step)
    ensures r.w == w && r.views == [] && !r.threw
    ensures r.requests == [OptInMember(w.competition.activeCompetitionId, button)]
  {
    Step(w, [OptInMember(w.competition.activeCompetitionId, button)], [], false)
  }

  /** revalidateIfSuccessfullOptIn: reload the active competition to see whether the opt-in took. */
  function StartRevalidation(w: Widget, button: OptInButton): (r: Step)
    ensures r.w == w && r.views == [] && !r.threw
    ensures r.requests == [CompetitionDetail(w.competition.activeCompetitionId, ForOptInCheck(button))]
  {
    Step(w, [CompetitionDetail(w.competition.activeCompetitionId, ForOptInCheck(button))], [], false)
  }

  /** The opt-in reply: only a 200 status goes on to the revalidation; anything else is logged. */
  function OnOptInReply(w: Widget, button: OptInButton, status: int): (r: Step)
    ensures r.w == w && r.views == [] && !r.threw
    ensures status == 200 ==> r.requests == [CompetitionDetail(w.competition.activeCompetitionId, ForOptInCheck(button))]
    ensures status != 200 ==> r.requests == []
  {
    if status == 200 then StartRevalidation(w, button) else Step(w, [], [], false)
  }

  /**
   * The callback each button hands to the revalidation, run with the
   * reloaded competition: all three store it as the active competition.
   * The score-board button then deactivates, drops the stored rows and
   * re-opens the main widget, whose layout callback restarts the outer loop
   * after a delay; the details button refreshes its opt-in button; the
   * leaderboard button reloads the competition details.
   */
  function Confirm(w: Widget, detail: Competition, button: OptInButton): (r: Step)
    requires Valid(w)
    ensures Valid(r.w) && r.requests == [] && !r.threw
    ensures r.w.competition == w.competition.(activeCompetition := Some(detail))
    ensures r.w.revalidations == w.revalidations
    ensures button == ScoreBoardOptIn ==>
              && r.w.leaderboardData == [] && r.w.mainActive
              && r.views == [ClearViews, LoadMainLeaderboard]
              && Timers.PendingFor(r.w.timers, Timers.LeaderboardSlot) == {}
              && (exists id :: id in r.w.timers.pending && id !in w.timers.pending && r.w.timers.pending[id] == Timers.ShowLayout)
    ensures button == DetailsOptIn ==> r.w == w.(competition := r.w.competition) && r.views == [OptInButtonState]
    ensures button == LeaderboardOptIn ==> r.w == w.(competition := r.w.competition) && r.views == [LoadCompetitionDetails]
  {
    var stored := w.(competition := w.competition.(activeCompetition := Some(detail)));
    match button
    case ScoreBoardOptIn =>
      var cleared := Deactivate(stored).(leaderboardData := [], mainActive := true);
      var (t, id) := Timers.Arm(cleared.timers, Timers.ShowLayout);
      assert id in t.pending && id !in w.timers.pending && t.pending[id] == Timers.ShowLayout;
      Step(cleared.(timers := t), [], [ClearViews, LoadMainLeaderboard], false)
    case DetailsOptIn => Step(stored, [], [OptInButtonState], false)
    case LeaderboardOptIn => Step(stored, [], [LoadCompetitionDetails], false)
  }

  /** The reloaded competition during revalidation: retry, give up, deliver or ignore. */
  function OnRevalidationDetail(w: Widget, detail: Competition, button: OptInButton): (r: Step)
    requires Valid(w)
    ensures Valid(r.w) && r.requests == [] && !r.threw
    ensures r.w.revalidations == OptIn.OnReply(w.revalidations, detail.optin).0
    ensures detail.optin == IsTrue ==> r.w.competition.activeCompetition == Some(detail)
    ensures detail.optin != IsTrue ==> r.w.competition == w.competition && r.views == []
    ensures OptIn.OnReply(w.revalidations, detail.optin).1 == OptIn.Retry ==>
              exists id :: id in r.w.timers.pending && id !in w.timers.pending && r.w.timers.pending[id] == Timers.RevalidateOptIn(button)
    ensures (exists id :: id in r.w.timers.pending && id !in w.timers.pending) <==>
              OptIn.OnReply(w.revalidations, detail.optin).1 == OptIn.Retry
              || (detail.optin == IsTrue && button == ScoreBoardOptIn)
  {
    var (count, action) := OptIn.OnReply(w.revalidations, detail.optin);
    var w' := w.(revalidations := count);
    match action
    case Retry =>
      var (t, id) := Timers.Arm(w.timers, Timers.RevalidateOptIn(button));
      assert id in t.pending && id !in w.timers.pending;
      Step(w'.(timers := t), [], [], false)
    case GiveUp => Step(w', [], [], false)
    case Deliver => Confirm(w', detail, button)
    case Ignore => Step(w', [], [], false)
  }

  /**
   * Whichever button was clicked, a confirmed opt-in makes the stored
   * competition eligible, so the inner loop's next tick polls rows for an
   * active contest.
   */
  lemma ConfirmedOptInPollsRows(w: Widget, detail: Competition, button: OptInButton)
    requires Valid(w) && detail.optin == IsTrue
    ensures var r := OnRevalidationDetail(w, detail, button).w;
            && Eligible(r.competition.activeCompetition)
            && (w.competition.activeContestId.Some? ==> |LeaderboardDataRefresh(r).requests| > 0)
  {
    var r := OnRevalidationDetail(w, detail, button).w;
    assert r.competition.activeContestId == w.competition.activeContestId;
  }

  // ---------------------------------------------------------------------
  // Timers and stopActivity

  /**
   * A pending timer fires. The two loops re-run their refresh; a revalidation
   * retry reloads the competition; the layout callback restarts the outer
   * loop and reloads the competition details; the other slots belong to
   * views outside this model and only stop being pending.
   */
  function OnTimer(w: Widget, id: nat): (r: Step)
    requires Valid(w) && id in w.timers.pending
    ensures Valid(r.w)
    ensures var task := w.timers.pending[id];
            task == Timers.Loop(Timers.CompetitionSlot) || task == Timers.ShowLayout ==>
              && r.requests == [AvailableCompetitions] && !r.threw
              && |Timers.PendingFor(r.w.timers, Timers.CompetitionSlot)| == 1
    ensures w.timers.pending[id] == Timers.ShowLayout ==> r.views == [LoadCompetitionDetails]
    ensures w.timers.pending[id] == Timers.Loop(Timers.LeaderboardDataSlot) ==>
              && (r.threw <==> w.competition.activeCompetition.None?)
              && (|r.requests| > 0 <==> Eligible(w.competition.activeCompetition) && w.competition.activeContestId.Some?)
    ensures w.timers.pending[id].RevalidateOptIn? ==>
              && r.requests == [CompetitionDetail(w.competition.activeCompetitionId, ForOptInCheck(w.timers.pending[id].button))]
              && r.w.timers.pending == w.timers.pending - {id}
    ensures w.timers.pending[id] in {Timers.Loop(Timers.LeaderboardSlot), Timers.Loop(Timers.ScoreBoardSlot)} ==>
              r.requests == [] && r.views == [] && r.w.timers.pending == w.timers.pending - {id}
    ensures r.w == w.(timers := r.w.timers)
  {
    var w' := w.(timers := Timers.Fire(w.timers, id));
    var task := w.timers.pending[id];
    if task == Timers.Loop(Timers.CompetitionSlot) then ActiveDataRefresh(w')
    else if task == Timers.Loop(Timers.LeaderboardDataSlot) then LeaderboardDataRefresh(w')
    else if task.Loop? then Step(w', [], [], false)
    else if task == Timers.ShowLayout then
      var outer := ActiveDataRefresh(w');
      Step(outer.w, outer.requests, [LoadCompetitionDetails], false)
    else StartRevalidation(w', task.button)
  }

  /** stopActivity: no loop timer is left pending. */
  function StopActivity(w: Widget): (r: Step)
    requires Valid(w)
    ensures Valid(r.w) && r.requests == [] && r.views == []
    ensures forall s :: Timers.PendingFor(r.w.timers, s) == {}
    ensures r.w == w.(timers := r.w.timers)
  {
    Step(w.(timers := Timers.StopActivity(w.timers)), [], [], false)
  }

  /** Starting the outer loop and then stopping activity leaves no loop timer pending. */
  lemma StartThenStop(w: Widget)
    requires Valid(w)
    ensures var r := StopActivity(ActiveDataRefresh(w).w);
            forall s :: Timers.PendingFor(r.w.timers, s) == {}
  {
  }

  /**
   * stopActivity cancels timers but not requests in flight: a competition
   * reply that arrives afterwards runs the selection callback, which starts
   * the inner loop again.
   */
  lemma StopDoesNotCancelReplies(w: Widget, detail: Competition)
    requires Valid(w) && (w.miniActive || w.mainActive)
    requires detail.optinRequired == IsTrue && detail.optin == IsFalse
    ensures var stopped := StopActivity(w).w;
            && Timers.PendingFor(stopped.timers, Timers.LeaderboardDataSlot) == {}
            && |Timers.PendingFor(OnSelectedDetail(stopped, detail).w.timers, Timers.LeaderboardDataSlot)| == 1
  {
  }

  // ---------------------------------------------------------------------
  // Runs of events

  /** What the event loop delivers to the widget. */
  datatype Event =
    | Start
    | AvailableReply(available: seq<Competition>)
    | FinishedReply(finished: seq<Competition>)
    | DetailReply(detail: Competition, purpose: DetailPurpose)
    | OptInReply(button: OptInButton, status: int)
    | RowsReply(rows: seq<Row>, next: AfterRows)
    | TimerExpired(id: nat)
    | OptInClicked(button: OptInButton)
    | Stop

  /** One event; a timer that was cleared never fires, so its expiry changes nothing. */
  function Handle(w: Widget, e: Event): (r: Step)
    requires Valid(w)
    ensures Valid(r.w)
    ensures e.Stop? ==> forall s :: Timers.PendingFor(r.w.timers, s) == {}
    ensures e.TimerExpired? && e.id !in w.timers.pending ==> r.w == w
  {
    match e
    case Start => ActiveDataRefresh(w)
    case AvailableReply(available) => OnAvailable(w, available)
    case FinishedReply(finished) => OnFinished(w, finished)
    case DetailReply(detail, ForSelection) => OnSelectedDetail(w, detail)
    case DetailReply(detail, ForOptInCheck(button)) => OnRevalidationDetail(w, detail, button)
    case OptInReply(button, status) => OnOptInReply(w, button, status)
    case RowsReply(rows, next) => OnRows(w, rows, next)
    case TimerExpired(id) => if id in w.timers.pending then OnTimer(w, id) else Step(w, [], [], false)
    case OptInClicked(button) => RequestOptIn(w, button)
    case Stop => StopActivity(w)
  }

  /** The widget after a run of events; an uncaught TypeError ends only its own stretch. */
  function Run(w: Widget, events: seq<Event>): (r: Widget)
    requires Valid(w)
    ensures Valid(r)
    decreases |events|
  {
    if events == [] then w else Run(Handle(w, events[0]).w, events[1..])
  }

  /** Whatever the order of events, no timer slot ever holds two pending timers. */
  lemma RunKeepsOneTimerPerSlot(w: Widget, events: seq<Event>)
    requires Valid(w)
    ensures forall s :: |Timers.PendingFor(Run(w, events).timers, s)| <= 1
  {
    var r := Run(w, events);
    forall s
      ensures |Timers.PendingFor(r.timers, s)| <= 1
    {
      Timers.AtMostOnePending(r.timers, s);
    }
  }
}
