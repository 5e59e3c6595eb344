/**
 * Plain records for the data the leaderboard widget receives from the
 * gateway. Fields the widget never inspects (labels, descriptions, dates) are
 * omitted; JavaScript values whose type the code tests at run time are given
 * an explicit datatype.
 */
module Types {

  /** `null` versus a present value. */
  datatype Option<+T> = None | Some(value: T)

  /** Competition and contest identifiers; compared with `===`. */
  type Id = string

  /**
   * A field the widget reads through a `typeof x === 'boolean'` guard: it is
   * either a boolean or something else (absent, null, a string ...).
   */
  datatype BoolField = IsTrue | IsFalse | NotBool

  /** A JavaScript number produced by `parseInt`: an integer or NaN. */
  datatype RankNum = Num(n: int) | NaN

  /**
   * The `rewardRank` of a reward: the compact text the gateway sends
   * ("1-3,5"), the array the widget expands it into, or any other JSON value.
   */
  datatype RewardRank = RankText(text: string) | RankList(ranks: seq<RankNum>) | RankOther

  /** A reward of a contest; `symbol` is `unitOfMeasure.symbol` when present. */
  datatype Reward = Reward(value: string, symbol: Option<string>, rewardRank: RewardRank)

  /** A contest of a competition; `rewards` may be missing from the payload. */
  datatype Contest = Contest(id: Id, statusCode: int, rewards: Option<seq<Reward>>)

  /**
   * A competition. Status codes 3, 5 and 7 mean ready, active and finished;
   * a missing `contests` array is the empty sequence.
   */
  datatype Competition = Competition(
    id: Id,
    statusCode: int,
    optinRequired: BoolField,
    optin: BoolField,
    contests: seq<Contest>)

  /** One leaderboard entry; ranks are 1-based and may be shared. */
  datatype Row = Row(rank: int, memberId: string, memberRefId: string, name: string, points: string)

  /**
   * The three opt-in buttons: on the mini scoreboard, in the competition
   * details and on the leaderboard. Each hands its own callback to the
   * revalidation.
   */
  datatype OptInButton = ScoreBoardOptIn | DetailsOptIn | LeaderboardOptIn

  const ReadyStatus: int := 3
  const ActiveStatus: int := 5
  const FinishedStatus: int := 7
}
