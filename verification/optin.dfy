/**
 * Opt-in revalidation (LbWidget.revalidateIfSuccessfullOptIn): after the
 * member opts in, the competition is reloaded until it reports `optin`,
 * with a retry budget kept in one counter shared by every revalidation.
 */
module OptIn {
  import opened Types

  /** The number of reloads answered `optin: false` after which the widget gives up. */
  const MaxRevalidations: nat := 5

  /** The delay before a retry, in milliseconds. */
  const RetryDelayMillis: nat := 100

  /** What the widget does with one reloaded competition. */
  datatype Action =
    | Retry    // schedule another reload after RetryDelayMillis
    | GiveUp   // counter reset, the callback is never invoked
    | Deliver  // the callback receives the competition
    | Ignore   // `optin` is not a boolean: nothing happens

  /** Handling of one reply, given the shared counter. */
  function OnReply(count: nat, optin: BoolField): (r: (nat, Action))
    ensures optin == IsFalse && count + 1 < MaxRevalidations ==> r == (count + 1, Retry)
    ensures optin == IsFalse && count + 1 >= MaxRevalidations ==> r == (0, GiveUp)
    ensures optin == IsTrue ==> r == (count, Deliver)
    ensures optin == NotBool ==> r == (count, Ignore)
    ensures count < MaxRevalidations ==> r.0 < MaxRevalidations
  {
    match optin
    case IsFalse =>
      var c := count + 1;
      if c < MaxRevalidations then (c, Retry) else (0, GiveUp)
    case IsTrue => (count, Deliver)
    case NotBool => (count, Ignore)
  }

  /** How a chain of reloads ends. */
  datatype End = GaveUp | Delivered | Ignored | Waiting

  /** The outcome of a revalidation chain: reloads issued, final counter, how it ended. */
  datatype Run = Run(loads: nat, count: nat, end: End)

  /**
   * The chain of reloads started by one call, fed the successive `optin`
   * values the gateway answers; `Waiting` means a retry is still scheduled
   * when the replies run out.
   */
  function Chain(count: nat, replies: seq<BoolField>): (r: Run)
    ensures r.loads <= |replies|
    ensures r.end != Waiting ==> r.loads >= 1 && (forall i :: 0 <= i < r.loads - 1 ==> replies[i] == IsFalse)
    ensures r.end == Delivered ==> replies[r.loads - 1] == IsTrue
    decreases |replies|
  {
    if |replies| == 0 then Run(0, count, Waiting)
    else
      var (c, action) := OnReply(count, replies[0]);
      match action
      case Retry =>
        var rest := Chain(c, replies[1..]);
        Run(rest.loads + 1, rest.count, rest.end)
      case GiveUp => Run(1, c, GaveUp)
      case Deliver => Run(1, c, Delivered)
      case Ignore => Run(1, c, Ignored)
  }

  /**
   * A gateway that never reports the opt-in: the chain issues exactly
   * `5 - count` reloads, resets the counter and never delivers; from a fresh
   * counter that is 5 reloads.
   */
  lemma {:induction false} NeverOptedInGivesUp(count: nat, replies: seq<BoolField>)
    requires count < MaxRevalidations
    requires |replies| >= MaxRevalidations - count
    requires forall i :: 0 <= i < |replies| ==> replies[i] == IsFalse
    ensures Chain(count, replies) == Run(MaxRevalidations - count, 0, GaveUp)
    decreases MaxRevalidations - count
  {
    if count + 1 < MaxRevalidations {
      NeverOptedInGivesUp(count + 1, replies[1..]);
    }
  }

  /**
   * A delivered opt-in leaves the shared counter where the failures put it,
   * so the next revalidation starts with a smaller budget.
   */
  lemma {:induction false} DeliveryKeepsCounter(count: nat, failures: nat, replies: seq<BoolField>)
    requires count + failures < MaxRevalidations
    requires |replies| == failures + 1
    requires forall i :: 0 <= i < failures ==> replies[i] == IsFalse
    requires replies[failures] == IsTrue
    ensures Chain(count, replies) == Run(failures + 1, count + failures, Delivered)
    decreases failures
  {
    if failures > 0 {
      DeliveryKeepsCounter(count + 1, failures - 1, replies[1..]);
    }
  }
}
