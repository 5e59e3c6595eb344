/**
 * Competition bucketing and the choice of the single active competition and
 * contest (LbWidget: checkForAvailableCompetitions,
 * checkForFinishedCompetitions, prepareActiveCompetition,
 * setActiveCompetition).
 */
module Selection {
  import opened Types
  import Seqs
  import RewardRanks

  /** The `tournaments` settings: the sticky id chosen in the UI and the three buckets. */
  datatype Tournaments = Tournaments(
    stickyId: Option<Id>,
    ready: seq<Competition>,
    active: seq<Competition>,
    finished: seq<Competition>)

  /** The `competition` settings: the competition and contest on display. */
  datatype CompetitionState = CompetitionState(
    activeCompetitionId: Option<Id>,
    activeCompetition: Option<Competition>,
    activeContestId: Option<Id>,
    activeContest: Option<Contest>)

  /**
   * Storing the reply of the available-competitions request: the ready and
   * active buckets are replaced by the status-3 and status-5 entries in fetch
   * order; other codes are dropped and nothing else changes.
   */
  function BucketAvailable(t: Tournaments, fetched: seq<Competition>): (r: Tournaments)
    ensures forall c :: c in r.ready <==> c in fetched && c.statusCode == ReadyStatus
    ensures forall c :: c in r.active <==> c in fetched && c.statusCode == ActiveStatus
    ensures forall c: Competition :: c.statusCode == ReadyStatus ==> multiset(r.ready)[c] == multiset(fetched)[c]
    ensures forall c: Competition :: c.statusCode == ActiveStatus ==> multiset(r.active)[c] == multiset(fetched)[c]
    ensures Seqs.IsSubsequence(r.ready, fetched) && Seqs.IsSubsequence(r.active, fetched)
    ensures r.finished == t.finished && r.stickyId == t.stickyId
  {
    t.(ready := Seqs.Filter(fetched, (c: Competition) => c.statusCode == ReadyStatus),
       active := Seqs.Filter(fetched, (c: Competition) => c.statusCode == ActiveStatus))
  }

  /** Storing the reply of the finished-competitions request: only status-7 entries are kept. */
  function BucketFinished(t: Tournaments, fetched: seq<Competition>): (r: Tournaments)
    ensures forall c :: c in r.finished <==> c in fetched && c.statusCode == FinishedStatus
    ensures forall c: Competition :: c.statusCode == FinishedStatus ==> multiset(r.finished)[c] == multiset(fetched)[c]
    ensures Seqs.IsSubsequence(r.finished, fetched)
    ensures r.ready == t.ready && r.active == t.active && r.stickyId == t.stickyId
  {
    t.(finished := Seqs.Filter(fetched, (c: Competition) => c.statusCode == FinishedStatus))
  }

  /** Buckets are replaced, not merged: the previous contents play no part. */
  lemma BucketsReplaced(t1: Tournaments, t2: Tournaments, fetched: seq<Competition>)
    requires t1.finished == t2.finished && t1.stickyId == t2.stickyId
    ensures BucketAvailable(t1, fetched) == BucketAvailable(t2, fetched)
  {
  }

  /** The index of the last competition with the given id, if any. */
  function LastWithId(s: seq<Competition>, id: Id): (r: Option<nat>)
    ensures r.Some? ==> r.value < |s| && s[r.value].id == id
    ensures r.Some? ==> forall j :: r.value < j < |s| ==> s[j].id != id
    ensures r.None? <==> forall j :: 0 <= j < |s| ==> s[j].id != id
  {
    if |s| == 0 then None
    else if s[|s| - 1].id == id then Some(|s| - 1)
    else LastWithId(s[..|s| - 1], id)
  }

  /** The buckets in the order `prepareActiveCompetition` scans them. */
  function ScanOrder(t: Tournaments): seq<Competition>
  {
    t.active + t.ready + t.finished
  }

  /** What `prepareActiveCompetition` leads to. */
  datatype Selection =
    | Deactivated                        // deactivateCompetitionsAndLeaderboards runs
    | Selected(competition: Competition) // loadActiveCompetition is requested

  datatype Prepared = Prepared(tournaments: Tournaments, state: CompetitionState, selection: Selection)

  /** The competition found by the sticky scan: the last match wins. */
  function StickyMatch(t: Tournaments): Option<Competition>
  {
    match t.stickyId
    case None => None
    case Some(id) =>
      match LastWithId(ScanOrder(t), id)
      case None => None
      case Some(k) => Some(ScanOrder(t)[k])
  }

  /** The fallback candidate: first active, else first ready; never a finished one. */
  function Fallback(t: Tournaments): Option<Competition>
  {
    if |t.active| > 0 then Some(t.active[0])
    else if |t.ready| > 0 then Some(t.ready[0])
    else None
  }

  /**
   * prepareActiveCompetition: keep the sticky competition while it is in a
   * bucket, otherwise clear the sticky id and fall back; with no candidate
   * deactivate. The stored competition is overwritten only when the chosen
   * id differs from the stored one.
   */
  function Prepare(t: Tournaments, c: CompetitionState): (r: Prepared)
    // the buckets are only read
    ensures r.tournaments.ready == t.ready && r.tournaments.active == t.active
    ensures r.tournaments.finished == t.finished
    // sticky hit: the last match in scan order is chosen and the id is kept
    ensures t.stickyId.Some? && (exists k :: 0 <= k < |ScanOrder(t)| && ScanOrder(t)[k].id == t.stickyId.value) ==>
              && r.tournaments.stickyId == t.stickyId
              && r.selection.Selected?
              && r.selection.competition.id == t.stickyId.value
              && (exists k :: && 0 <= k < |ScanOrder(t)|
                             && ScanOrder(t)[k] == r.selection.competition
                             && forall j :: k < j < |ScanOrder(t)| ==> ScanOrder(t)[j].id != t.stickyId.value)
    // sticky miss: the id is reset
    ensures t.stickyId.Some? && (forall k :: 0 <= k < |ScanOrder(t)| ==> ScanOrder(t)[k].id != t.stickyId.value) ==>
              r.tournaments.stickyId.None?
    ensures t.stickyId.None? ==> r.tournaments.stickyId.None?
    // no sticky hit: first active, else first ready, else deactivate
    ensures (t.stickyId.None? || forall k :: 0 <= k < |ScanOrder(t)| ==> ScanOrder(t)[k].id != t.stickyId.value) ==>
              && (|t.active| > 0 ==> r.selection == Selected(t.active[0]))
              && (|t.active| == 0 && |t.ready| > 0 ==> r.selection == Selected(t.ready[0]))
              && (|t.active| == 0 && |t.ready| == 0 ==> r.selection == Deactivated)
    // the stored competition changes only for a new id
    ensures r.selection.Deactivated? ==> r.state == c
    ensures r.selection.Selected? && c.activeCompetitionId == Some(r.selection.competition.id) ==> r.state == c
    ensures r.selection.Selected? && c.activeCompetitionId != Some(r.selection.competition.id) ==>
              r.state == c.(activeCompetitionId := Some(r.selection.competition.id),
                            activeCompetition := Some(r.selection.competition))
    // the detail load that follows asks for the chosen competition
    ensures r.selection.Selected? ==> r.state.activeCompetitionId == Some(r.selection.competition.id)
  {
    var sticky := StickyMatch(t);
    var t' := if t.stickyId.Some? && sticky.None? then t.(stickyId := None) else t;
    var candidate := if sticky.Some? then sticky else Fallback(t);
    match candidate
    case None => Prepared(t', c, Deactivated)
    case Some(comp) =>
      var c' := if c.activeCompetitionId != Some(comp.id)
                then c.(activeCompetitionId := Some(comp.id), activeCompetition := Some(comp))
                else c;
      Prepared(t', c', Selected(comp))
  }

  /** A competition chosen without a sticky hit is always ready or active. */
  lemma FallbackNeverFinished(t: Tournaments, c: CompetitionState)
    requires StickyMatch(t).None?
    requires Prepare(t, c).selection.Selected?
    ensures Prepare(t, c).selection.competition in t.active + t.ready
  {
  }

  /**
   * Selection is stable: running prepareActiveCompetition again on its own
   * outcome (no new fetch in between) chooses the same competition and leaves
   * the stored state alone.
   */
  lemma PrepareStable(t: Tournaments, c: CompetitionState)
    ensures var r := Prepare(t, c);
            Prepare(r.tournaments, r.state) == r
  {
    var r := Prepare(t, c);
    var sticky := StickyMatch(t);
    if sticky.Some? {
      assert StickyMatch(r.tournaments) == sticky;
    } else {
      assert r.tournaments.stickyId.None?;
      assert StickyMatch(r.tournaments).None?;
    }
  }

  /** The index of the first contest that is not finished (statusCode < 7). */
  function FirstOpenContest(contests: seq<Contest>): (r: Option<nat>)
    ensures r.Some? ==> r.value < |contests| && contests[r.value].statusCode < FinishedStatus
    ensures r.Some? ==> forall j :: 0 <= j < r.value ==> contests[j].statusCode >= FinishedStatus
    ensures r.None? <==> forall j :: 0 <= j < |contests| ==> contests[j].statusCode >= FinishedStatus
  {
    if |contests| == 0 then None
    else if contests[0].statusCode < FinishedStatus then Some(0)
    else match FirstOpenContest(contests[1..])
         case None => None
         case Some(k) => Some(k + 1)
  }

  /** The contest as stored once active: missing rewards become [] and ranks are expanded. */
  function ActivateContest(k: Contest): (r: Contest)
    ensures r.id == k.id && r.statusCode == k.statusCode && r.rewards.Some?
    ensures k.rewards.None? ==> r.rewards == Some([])
    ensures k.rewards.Some? ==> |r.rewards.value| == |k.rewards.value|
    ensures k.rewards.Some? ==> forall i :: 0 <= i < |r.rewards.value| ==>
              var before, after := k.rewards.value[i], r.rewards.value[i];
              && after.value == before.value && after.symbol == before.symbol
              && (before.rewardRank.RankText? ==>
                    after.rewardRank == RankList(RewardRanks.ExpandRankText(before.rewardRank.text)))
              && (!before.rewardRank.RankText? ==> after == before)
    ensures forall i :: 0 <= i < |r.rewards.value| ==> !r.rewards.value[i].rewardRank.RankText?
  {
    var rewards := match k.rewards case None => [] case Some(rs) => rs;
    k.(rewards := Some(RewardRanks.ExpandRewards(rewards)))
  }

  /** Activating a contest twice is the same as activating it once. */
  lemma {:induction false} ActivateContestIdempotent(k: Contest)
    ensures ActivateContest(ActivateContest(k)) == ActivateContest(k)
  {
    var once := ActivateContest(k).rewards.value;
    RewardRanks.ExpandRewardsIdempotent(match k.rewards case None => [] case Some(rs) => rs);
    assert RewardRanks.ExpandRewards(once) == once;
  }

  /**
   * setActiveCompetition: the detail payload becomes the active competition;
   * the active contest is the first one that is not finished, with its
   * rewards' ranks expanded, or none.
   */
  function SetActiveCompetition(c: CompetitionState, detail: Competition): (r: CompetitionState)
    ensures r.activeCompetition == Some(detail)
    ensures r.activeCompetitionId == c.activeCompetitionId
    ensures r.activeContest.None? <==> forall j :: 0 <= j < |detail.contests| ==> detail.contests[j].statusCode >= FinishedStatus
    ensures r.activeContest.Some? ==>
              (exists i :: && 0 <= i < |detail.contests|
                           && detail.contests[i].statusCode < FinishedStatus
                           && (forall j :: 0 <= j < i ==> detail.contests[j].statusCode >= FinishedStatus)
                           && r.activeContest.value == ActivateContest(detail.contests[i]))
    ensures r.activeContestId == (if r.activeContest.Some? then Some(r.activeContest.value.id) else None)
  {
    match FirstOpenContest(detail.contests)
    case None => c.(activeCompetition := Some(detail), activeContest := None, activeContestId := None)
    case Some(i) =>
      var k := ActivateContest(detail.contests[i]);
      c.(activeCompetition := Some(detail), activeContest := Some(k), activeContestId := Some(k.id))
  }
}
