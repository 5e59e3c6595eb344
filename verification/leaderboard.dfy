/**
 * The leaderboard projection rules of the main widget (MainWidget:
 * updateLeaderboard, updateLeaderboardTopResults, updateLeaderboardResults,
 * getReward, populateLeaderboardResultsWithDefaultEntries), separated from
 * the DOM rows they feed.
 */
module Leaderboard {
  import opened Types
  import Seqs
  import RewardRanks

  // ---------------------------------------------------------------------
  // Top / remaining split

  /**
   * updateLeaderboard: rows ranked at most `topSize` go to the top block,
   * the others to the remaining list, each in fetch order.
   */
  function InTop(topSize: int): Row -> bool
  {
    (row: Row) => row.rank <= topSize
  }

  function InRest(topSize: int): Row -> bool
  {
    (row: Row) => !(row.rank <= topSize)
  }

  function SplitRows(rows: seq<Row>, topSize: int): (r: (seq<Row>, seq<Row>))
    ensures forall i :: 0 <= i < |r.0| ==> r.0[i].rank <= topSize
    ensures forall i :: 0 <= i < |r.1| ==> r.1[i].rank > topSize
    ensures Seqs.IsSubsequence(r.0, rows) && Seqs.IsSubsequence(r.1, rows)
    ensures multiset(r.0) + multiset(r.1) == multiset(rows)
    ensures |r.0| + |r.1| == |rows|
  {
    var isTop := InTop(topSize);
    var isRest := InRest(topSize);
    Seqs.FilterComplement(rows, isTop, isRest);
    (Seqs.Filter(rows, isTop), Seqs.Filter(rows, isRest))
  }

  // ---------------------------------------------------------------------
  // Shared ranks

  function RanksOf(rows: seq<Row>): (r: seq<int>)
    ensures |r| == |rows| && forall i :: 0 <= i < |rows| ==> r[i] == rows[i].rank
  {
    seq(|rows|, i requires 0 <= i < |rows| => rows[i].rank)
  }

  /** How many rows before position i share its rank: the row's `count`. */
  function SharedIndex(rows: seq<Row>, i: nat): nat
    requires i < |rows|
  {
    multiset(RanksOf(rows[..i]))[rows[i].rank]
  }

  lemma RanksOfSnoc(rows: seq<Row>, i: nat)
    requires i < |rows|
    ensures RanksOf(rows[..i + 1]) == RanksOf(rows[..i]) + [rows[i].rank]
  {
    assert rows[..i + 1] == rows[..i] + [rows[i]];
  }

  /** A row's shared index is 0 exactly when no earlier row has its rank. */
  lemma SharedIndexZeroIff(rows: seq<Row>, i: nat)
    requires i < |rows|
    ensures SharedIndex(rows, i) == 0 <==> forall j :: 0 <= j < i ==> rows[j].rank != rows[i].rank
  {
    var before := RanksOf(rows[..i]);
    assert forall j :: 0 <= j < i ==> before[j] == rows[j].rank;
    assert rows[i].rank in before <==> exists j :: 0 <= j < i && rows[j].rank == rows[i].rank;
  }

  /** The inner rescan of the ranks seen so far: how often `rank` occurs. */
  method CountRank(rankCheck: seq<int>, rank: int) returns (count: nat)
    ensures count == multiset(rankCheck)[rank]
  {
    count := 0;
    for rc := 0 to |rankCheck|
      invariant count == multiset(rankCheck[..rc])[rank]
    {
      assert rankCheck[..rc + 1] == rankCheck[..rc] + [rankCheck[rc]];
      if rankCheck[rc] == rank {
        count := count + 1;
      }
    }
    assert rankCheck[..|rankCheck|] == rankCheck;
  }

  /**
   * The per-row `count` of a batch, computed as the widget does: a list of
   * the ranks seen so far, rescanned whenever the current rank is in it.
   */
  method SharedRankCounts(rows: seq<Row>) returns (counts: seq<nat>)
    ensures |counts| == |rows|
    ensures forall i :: 0 <= i < |rows| ==> counts[i] == SharedIndex(rows, i)
    ensures forall i :: 0 <= i < |rows| ==>
              (counts[i] == 0 <==> forall j :: 0 <= j < i ==> rows[j].rank != rows[i].rank)
  {
    var rankCheck: seq<int> := [];
    counts := [];
    for i := 0 to |rows|
      invariant rankCheck == RanksOf(rows[..i])
      invariant |counts| == i
      invariant forall k :: 0 <= k < i ==> counts[k] == SharedIndex(rows, k)
    {
      var rank := rows[i].rank;
      var count := 0;
      if rank in rankCheck {
        count := CountRank(rankCheck, rank);
      }
      assert count == SharedIndex(rows, i);
      counts := counts + [count];
      RanksOfSnoc(rows, i);
      rankCheck := rankCheck + [rank];
    }
    forall i | 0 <= i < |rows|
      ensures counts[i] == 0 <==> forall j :: 0 <= j < i ==> rows[j].rank != rows[i].rank
    {
      SharedIndexZeroIff(rows, i);
    }
  }

  // ---------------------------------------------------------------------
  // Placeholder rows

  function Placeholder(rank: int): Row
  {
    Row(rank, "", "", "--", "--")
  }

  predicate IsPlaceholder(row: Row)
  {
    row.name == "--" && row.points == "--" && row.memberId == "" && row.memberRefId == ""
  }

  /** `n` placeholder rows with consecutive ranks from `first`. */
  function PlaceholderRun(first: int, n: nat): (r: seq<Row>)
    ensures |r| == n
    ensures forall i :: 0 <= i < n ==> r[i].rank == first + i && IsPlaceholder(r[i])
    decreases n
  {
    if n == 0 then [] else [Placeholder(first)] + PlaceholderRun(first + 1, n - 1)
  }

  /**
   * populateLeaderboardResultsWithDefaultEntries: ranks 1..topSize for the
   * top block and topSize+1..emptyList for the remaining list.
   */
  function Placeholders(topSize: int, emptyList: int): (r: (seq<Row>, seq<Row>))
    ensures |r.0| == (if topSize > 0 then topSize else 0)
    ensures |r.1| == (if emptyList > topSize then emptyList - topSize else 0)
    ensures forall i :: 0 <= i < |r.0| ==> r.0[i].rank == i + 1 && IsPlaceholder(r.0[i])
    ensures forall i :: 0 <= i < |r.1| ==> r.1[i].rank == topSize + 1 + i && IsPlaceholder(r.1[i])
  {
    (PlaceholderRun(1, if topSize > 0 then topSize else 0),
     PlaceholderRun(topSize + 1, if emptyList > topSize then emptyList - topSize else 0))
  }

  /**
   * Placeholders fill ranks 1..emptyList without gaps, and splitting them as
   * updateLeaderboard splits real rows gives back the two blocks.
   */
  lemma PlaceholderRanks(topSize: int, emptyList: int)
    requires 0 <= topSize <= emptyList
    ensures |Placeholders(topSize, emptyList).0 + Placeholders(topSize, emptyList).1| == emptyList
    ensures forall i :: 0 <= i < emptyList ==>
              (Placeholders(topSize, emptyList).0 + Placeholders(topSize, emptyList).1)[i].rank == i + 1
  {
    var top: seq<Row> := Placeholders(topSize, emptyList).0;
    var rest: seq<Row> := Placeholders(topSize, emptyList).1;
    forall i | 0 <= i < emptyList
      ensures (top + rest)[i].rank == i + 1
    {
      if i >= |top| {
        assert (top + rest)[i] == rest[i - topSize];
      }
    }
  }

  /** Rows already grouped into a top block and a remaining block split back into them. */
  lemma {:induction false} SplitOfBlocks(top: seq<Row>, rest: seq<Row>, topSize: int)
    requires forall i :: 0 <= i < |top| ==> top[i].rank <= topSize
    requires forall i :: 0 <= i < |rest| ==> rest[i].rank > topSize
    ensures SplitRows(top + rest, topSize) == (top, rest)
  {
    var isTop := InTop(topSize);
    var isRest := InRest(topSize);
    assert Seqs.Filter(top, isTop) == top by {
      assert forall i :: 0 <= i < |top| ==> isTop(top[i]);
      Seqs.FilterAllOrNone(top, isTop);
    }
    assert Seqs.Filter(rest, isTop) == [] by {
      assert forall i :: 0 <= i < |rest| ==> !isTop(rest[i]);
      Seqs.FilterAllOrNone(rest, isTop);
    }
    assert Seqs.Filter(top, isRest) == [] by {
      assert forall i :: 0 <= i < |top| ==> !isRest(top[i]);
      Seqs.FilterAllOrNone(top, isRest);
    }
    assert Seqs.Filter(rest, isRest) == rest by {
      assert forall i :: 0 <= i < |rest| ==> isRest(rest[i]);
      Seqs.FilterAllOrNone(rest, isRest);
    }
    Seqs.FilterAppend(top, rest, isTop);
    Seqs.FilterAppend(top, rest, isRest);
    assert rest == [] + rest;
    assert top == top + [];
  }

  /** Placeholder rows split exactly as updateLeaderboard splits real rows. */
  lemma PlaceholdersSplitAsRows(topSize: int, emptyList: int)
    requires 0 <= topSize
    ensures SplitRows(Placeholders(topSize, emptyList).0 + Placeholders(topSize, emptyList).1, topSize)
              == Placeholders(topSize, emptyList)
  {
    var p := Placeholders(topSize, emptyList);
    SplitOfBlocks(p.0, p.1, topSize);
  }

  // ---------------------------------------------------------------------
  // The member's own row and name masking

  /**
   * With `useLbMemberId` the member's id may match either id of the row;
   * otherwise only the reference id counts.
   */
  predicate IsMemberRow(useLbMemberId: bool, memberId: string, row: Row)
  {
    if useLbMemberId then memberId == row.memberId || memberId == row.memberRefId
    else memberId == row.memberRefId
  }

  /**
   * `useLbMemberId` only widens the match: a row found by its reference id
   * is found either way, and the extra rows it finds are those whose
   * leaderboard member id is the member's.
   */
  lemma MemberMatchWidens(memberId: string, row: Row)
    ensures IsMemberRow(false, memberId, row) ==> IsMemberRow(true, memberId, row)
    ensures IsMemberRow(true, memberId, row) && !IsMemberRow(false, memberId, row) <==>
              memberId == row.memberId && memberId != row.memberRefId
  {
  }

  /** The first `n` characters; a negative `n` drops that many from the back instead. */
  function SliceFromStart(s: string, n: int): (r: string)
    ensures |r| <= |s| && r == s[..|r|]
    ensures n >= 0 ==> |r| == if n < |s| then n else |s|
    ensures n < 0 ==> |r| == if |s| + n > 0 then |s| + n else 0
  {
    if n >= |s| then s
    else if n >= 0 then s[..n]
    else if |s| + n >= 0 then s[..|s| + n]
    else []
  }

  /**
   * The name shown for a row: `you` for the member; other names are cut to
   * their first `nameLength` characters followed by five stars when the
   * length setting is non-zero. As in the widget, the test is on the text:
   * a name equal to `you` is never masked.
   */
  function DisplayName(found: bool, name: string, you: string, nameLength: int): (r: string)
    ensures found ==> r == you
    ensures !found && (nameLength == 0 || name == you) ==> r == name
    ensures !found && nameLength != 0 && name != you ==>
              && 5 <= |r| <= |name| + 5
              && r[|r| - 5..] == "*****"
              && r[..|r| - 5] == name[..|r| - 5]
              && (nameLength > 0 ==> |r| - 5 == if nameLength < |name| then nameLength else |name|)
  {
    var shown := if found then you else name;
    if nameLength != 0 && shown != you then SliceFromStart(shown, nameLength) + "*****" else shown
  }

  /**
   * The name column of a leaderboard row: the member's own row, found as
   * the settings say, shows `you`; other rows show their name, masked.
   */
  function RowName(useLbMemberId: bool, memberId: string, row: Row, you: string, nameLength: int): (r: string)
    ensures IsMemberRow(useLbMemberId, memberId, row) ==> r == you
    ensures !IsMemberRow(useLbMemberId, memberId, row) && (nameLength == 0 || row.name == you) ==> r == row.name
    ensures !IsMemberRow(useLbMemberId, memberId, row) && nameLength != 0 && row.name != you ==>
              5 <= |r| <= |row.name| + 5 && r[|r| - 5..] == "*****" && r[..|r| - 5] == row.name[..|r| - 5]
  {
    DisplayName(IsMemberRow(useLbMemberId, memberId, row), row.name, you, nameLength)
  }

  /**
   * The member's own row shows `you` whichever id matching is configured
   * when the reference id matches, and another member's row never shows a
   * name longer than `nameLength` plus the five stars.
   */
  lemma MemberRowShowsYou(useLbMemberId: bool, memberId: string, row: Row, you: string, nameLength: nat)
    ensures row.memberRefId == memberId ==> RowName(useLbMemberId, memberId, row, you, nameLength) == you
    ensures !IsMemberRow(useLbMemberId, memberId, row) && nameLength > 0 && row.name != you ==>
              |RowName(useLbMemberId, memberId, row, you, nameLength)| <= nameLength + 5
  {
    if !IsMemberRow(useLbMemberId, memberId, row) && nameLength > 0 && row.name != you {
      MaskRevealsPrefixOnly(row.name, you, nameLength);
    }
  }

  /** Masking never reveals more than `nameLength` characters of another member's name. */
  lemma MaskRevealsPrefixOnly(name: string, you: string, nameLength: nat)
    requires nameLength > 0 && name != you
    ensures |DisplayName(false, name, you, nameLength)| <= nameLength + 5
  {
  }

  // ---------------------------------------------------------------------
  // Rewards by rank

  /** The default `rewardFormatter`: the unit symbol, when present, before the value. */
  function DefaultFormat(reward: Reward): (r: string)
    ensures |r| >= |reward.value| && r[|r| - |reward.value|..] == reward.value
    ensures reward.symbol.Some? ==> |r| == |reward.symbol.value| + |reward.value| && r[..|reward.symbol.value|] == reward.symbol.value
    ensures reward.symbol.None? ==> |r| == |reward.value|
  {
    match reward.symbol
    case Some(sym) => sym + reward.value
    case None => reward.value
  }

  /** A reward applies to a rank when its expanded rank list contains it. */
  predicate RewardsRank(reward: Reward, rank: int)
  {
    reward.rewardRank.RankList? && Num(rank) in reward.rewardRank.ranks
  }

  /** The filter of getReward: the rewards whose rank list holds `rank`. */
  function Covers(rank: int): Reward -> bool
  {
    (rw: Reward) => RewardsRank(rw, rank)
  }

  function FormatAll(rewards: seq<Reward>, format: Reward -> string): (r: seq<string>)
    ensures |r| == |rewards| && forall i :: 0 <= i < |r| ==> r[i] == format(rewards[i])
  {
    seq(|rewards|, i requires 0 <= i < |rewards| => format(rewards[i]))
  }

  function RewardsOf(contest: Option<Contest>): seq<Reward>
  {
    match contest
    case None => []
    case Some(k) => match k.rewards case None => [] case Some(rs) => rs
  }

  /**
   * getReward: the formatted rewards whose rank list contains `rank`, in
   * reward order, joined by ", "; rank texts that were never expanded are
   * skipped and no active contest gives "".
   */
  function GetReward(contest: Option<Contest>, rank: int, format: Reward -> string): (r: string)
    ensures contest.None? ==> r == ""
    ensures (forall i :: 0 <= i < |RewardsOf(contest)| ==> !RewardsRank(RewardsOf(contest)[i], rank)) ==> r == ""
  {
    Seqs.FilterAllOrNone(RewardsOf(contest), Covers(rank));
    RewardText(RewardsOf(contest), rank, format)
  }

  function RewardText(rewards: seq<Reward>, rank: int, format: Reward -> string): string
  {
    Seqs.Join(FormatAll(Seqs.Filter(rewards, Covers(rank)), format), ", ")
  }

  /** A rank covered by exactly one reward shows that reward alone. */
  lemma GetRewardSingle(contest: Option<Contest>, rank: int, format: Reward -> string, k: nat)
    requires k < |RewardsOf(contest)| && RewardsRank(RewardsOf(contest)[k], rank)
    requires forall j :: 0 <= j < |RewardsOf(contest)| && j != k ==> !RewardsRank(RewardsOf(contest)[j], rank)
    ensures GetReward(contest, rank, format) == format(RewardsOf(contest)[k])
  {
    Seqs.FilterSingle(RewardsOf(contest), Covers(rank), k);
  }

  /** When no formatted reward is empty, the text is empty exactly when no reward covers the rank. */
  lemma GetRewardEmptyIff(contest: Option<Contest>, rank: int, format: Reward -> string)
    requires forall i :: 0 <= i < |RewardsOf(contest)| ==> format(RewardsOf(contest)[i]) != ""
    ensures GetReward(contest, rank, format) == "" <==>
              forall i :: 0 <= i < |RewardsOf(contest)| ==> !RewardsRank(RewardsOf(contest)[i], rank)
  {
    var rewards := RewardsOf(contest);
    var matching := Seqs.Filter(rewards, Covers(rank));
    if exists i :: 0 <= i < |rewards| && RewardsRank(rewards[i], rank) {
      var i :| 0 <= i < |rewards| && RewardsRank(rewards[i], rank);
      assert rewards[i] in matching;
      assert |matching| > 0;
      assert format(matching[0]) != "";
      JoinNonEmpty(FormatAll(matching, format), ", ");
    }
  }

  lemma FormatAllAppend(a: seq<Reward>, b: seq<Reward>, format: Reward -> string)
    ensures FormatAll(a + b, format) == FormatAll(a, format) + FormatAll(b, format)
  {
  }

  lemma RewardTextSkip(rs: seq<Reward>, rw: Reward, rank: int, format: Reward -> string)
    requires !RewardsRank(rw, rank)
    ensures RewardText(rs + [rw], rank, format) == RewardText(rs, rank, format)
  {
    Seqs.FilterSnoc(rs, rw, Covers(rank));
    assert Seqs.Filter(rs, Covers(rank)) + [] == Seqs.Filter(rs, Covers(rank));
  }

  lemma RewardTextFirst(rs: seq<Reward>, rw: Reward, rank: int, format: Reward -> string)
    requires RewardsRank(rw, rank) && forall i :: 0 <= i < |rs| ==> !RewardsRank(rs[i], rank)
    ensures RewardText(rs + [rw], rank, format) == format(rw)
  {
    Seqs.FilterSnoc(rs, rw, Covers(rank));
    Seqs.FilterNone(rs, Covers(rank));
    assert [] + [rw] == [rw];
  }

  lemma JoinFormatSnoc(m: seq<Reward>, rw: Reward, format: Reward -> string)
    requires |m| >= 1
    ensures Seqs.Join(FormatAll(m + [rw], format), ", ") == Seqs.Join(FormatAll(m, format), ", ") + ", " + format(rw)
  {
    var parts := FormatAll(m, format);
    assert FormatAll(m + [rw], format) == parts + [format(rw)] by {
      FormatAllAppend(m, [rw], format);
    }
    Seqs.JoinSnoc(parts, format(rw), ", ");
  }

  lemma RewardTextAppend(rs: seq<Reward>, rw: Reward, rank: int, format: Reward -> string)
    requires RewardsRank(rw, rank) && exists i :: 0 <= i < |rs| && RewardsRank(rs[i], rank)
    ensures RewardText(rs + [rw], rank, format) == RewardText(rs, rank, format) + ", " + format(rw)
  {
    var p := Covers(rank);
    var m := Seqs.Filter(rs, p);
    assert Seqs.Filter(rs + [rw], p) == m + [rw] by {
      Seqs.FilterSnoc(rs, rw, p);
      assert p(rw);
    }
    assert |m| >= 1 by {
      var i :| 0 <= i < |rs| && RewardsRank(rs[i], rank);
      assert p(rs[i]);
    }
    JoinFormatSnoc(m, rw, format);
  }

  /**
   * getReward built up reward by reward: a further reward that does not
   * cover the rank changes nothing; one that does is appended, after ", "
   * when an earlier reward already covered the rank.
   */
  lemma GetRewardSnoc(k: Contest, rs: seq<Reward>, rw: Reward, rank: int, format: Reward -> string)
    requires k.rewards == Some(rs + [rw])
    ensures var before := GetReward(Some(k.(rewards := Some(rs))), rank, format);
            var after := GetReward(Some(k), rank, format);
            && (!RewardsRank(rw, rank) ==> after == before)
            && (RewardsRank(rw, rank) && (forall i :: 0 <= i < |rs| ==> !RewardsRank(rs[i], rank)) ==>
                  after == format(rw))
            && (RewardsRank(rw, rank) && (exists i :: 0 <= i < |rs| && RewardsRank(rs[i], rank)) ==>
                  after == before + ", " + format(rw))
  {
    assert GetReward(Some(k), rank, format) == RewardText(rs + [rw], rank, format);
    assert GetReward(Some(k.(rewards := Some(rs))), rank, format) == RewardText(rs, rank, format);
    if !RewardsRank(rw, rank) {
      RewardTextSkip(rs, rw, rank, format);
    } else if forall i :: 0 <= i < |rs| ==> !RewardsRank(rs[i], rank) {
      RewardTextFirst(rs, rw, rank, format);
    } else {
      RewardTextAppend(rs, rw, rank, format);
    }
  }

  /** Two example rewards: "$10" for ranks 1 and 2, "5" for rank 1. */
  function ExampleRewards(): seq<Reward>
  {
    [Reward("10", Some("$"), RankList([Num(1), Num(2)])), Reward("5", None, RankList([Num(1)]))]
  }

  lemma ExampleSharedRank()
    ensures RewardText(ExampleRewards(), 1, DefaultFormat) == "$10, 5"
  {
    var rs := ExampleRewards();
    var a, b := rs[0], rs[1];
    assert rs == [a] + [b] && [a] == [] + [a];
    assert DefaultFormat(a) == "$10" && DefaultFormat(b) == "5";
    assert RewardsRank(a, 1) && RewardsRank(b, 1);
    RewardTextFirst([], a, 1, DefaultFormat);
    var first := RewardText([a], 1, DefaultFormat);
    assert first == "$10";
    RewardTextAppend([a], b, 1, DefaultFormat);
    assert RewardText(rs, 1, DefaultFormat) == first + ", " + "5";
    ExampleJoined();
  }

  lemma ExampleJoined()
    ensures "$10" + ", " + "5" == "$10, 5"
  {
  }

  lemma ExampleSingleRank()
    ensures RewardText(ExampleRewards(), 2, DefaultFormat) == "$10"
  {
    var rs := ExampleRewards();
    var a, b := rs[0], rs[1];
    assert rs == [a] + [b] && [a] == [] + [a];
    assert DefaultFormat(a) == "$10";
    assert RewardsRank(a, 2) && !RewardsRank(b, 2);
    RewardTextFirst([], a, 2, DefaultFormat);
    RewardTextSkip([a], b, 2, DefaultFormat);
  }

  lemma ExampleUncoveredRank()
    ensures RewardText(ExampleRewards(), 3, DefaultFormat) == ""
  {
    var rs := ExampleRewards();
    assert !RewardsRank(rs[0], 3) && !RewardsRank(rs[1], 3);
    Seqs.FilterNone(rs, Covers(3));
  }

  /** The default formatter on a two-reward contest: the symbol precedes the value. */
  lemma GetRewardExample(k: Contest)
    requires k.rewards == Some(ExampleRewards())
    ensures GetReward(Some(k), 1, DefaultFormat) == "$10, 5"
    ensures GetReward(Some(k), 2, DefaultFormat) == "$10"
    ensures GetReward(Some(k), 3, DefaultFormat) == ""
  {
    ExampleSharedRank();
    ExampleSingleRank();
    ExampleUncoveredRank();
  }

  lemma JoinNonEmpty(parts: seq<string>, sep: string)
    requires |parts| > 0 && parts[0] != ""
    ensures Seqs.Join(parts, sep) != ""
  {
    if |parts| > 1 {
      assert |Seqs.Join(parts, sep)| >= |parts[0]|;
    }
  }
}
