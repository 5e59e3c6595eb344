/**
 * The main widget's navigation: ordering of the navigation items, the lock
 * that serialises tab switches, the contest countdown label and the fixed
 * truncation of list texts.
 */
module Navigation {
  import opened Types
  import Seqs

  // ---------------------------------------------------------------------
  // Ordering

  /** A navigation entry: its settings key and its parsed `order`. */
  datatype NavItem = NavItem(key: string, order: int)

  /**
   * navigationSorter on parsed orders: -1, 1 or 0. Both comparisons are
   * false when either side is NaN, so NaN compares equal to everything.
   */
  function NavigationSorter(a: RankNum, b: RankNum): (r: int)
    ensures r in {-1, 0, 1}
    ensures r == -1 <==> a.Num? && b.Num? && a.n < b.n
    ensures r == 1 <==> a.Num? && b.Num? && a.n > b.n
    ensures r == 0 <==> a.NaN? || b.NaN? || a == b
  {
    if a.Num? && b.Num? && a.n < b.n then -1
    else if a.Num? && b.Num? && a.n > b.n then 1
    else 0
  }

  /** Swapping the arguments negates the comparison. */
  lemma SorterAntisymmetric(a: RankNum, b: RankNum)
    ensures NavigationSorter(a, b) == -NavigationSorter(b, a)
  {
  }

  ghost predicate SortedByOrder(s: seq<NavItem>)
  {
    forall i, j :: 0 <= i < j < |s| ==> s[i].order <= s[j].order
  }

  /** Place `x` before the first entry that does not sort before it. */
  function Insert(x: NavItem, s: seq<NavItem>): (r: seq<NavItem>)
    ensures multiset(r) == multiset(s) + multiset{x}
    ensures forall k :: 0 <= k < |r| ==> r[k] == x || r[k] in s
  {
    if s == [] then [x]
    else if x.order <= s[0].order then [x] + s
    else
      assert s == [s[0]] + s[1..];
      [s[0]] + Insert(x, s[1..])
  }

  lemma {:induction false} InsertSorted(x: NavItem, s: seq<NavItem>)
    requires SortedByOrder(s)
    ensures SortedByOrder(Insert(x, s))
  {
    if s != [] && x.order > s[0].order {
      var head, tail := s[0], s[1..];
      assert SortedByOrder(tail) by {
        forall i, j | 0 <= i < j < |tail|
          ensures tail[i].order <= tail[j].order
        {
          assert tail[i] == s[i + 1] && tail[j] == s[j + 1];
        }
      }
      InsertSorted(x, tail);
      var rest := Insert(x, tail);
      forall k | 0 <= k < |rest|
        ensures head.order <= rest[k].order
      {
        if rest[k] != x {
          var m :| 0 <= m < |tail| && tail[m] == rest[k];
          assert tail[m] == s[m + 1];
        }
      }
    }
  }

  /**
   * navigationList.sort(navigationSorter) for numeric orders. The engine's
   * sort is stable, as insertion of each entry before its equals is.
   */
  function SortByOrder(s: seq<NavItem>): (r: seq<NavItem>)
    ensures multiset(r) == multiset(s)
    ensures SortedByOrder(r)
  {
    if s == [] then []
    else
      assert s == [s[0]] + s[1..];
      InsertSorted(s[0], SortByOrder(s[1..]));
      Insert(s[0], SortByOrder(s[1..]))
  }

  function HasOrder(k: int): NavItem -> bool
  {
    (x: NavItem) => x.order == k
  }

  lemma {:induction false} InsertStable(x: NavItem, s: seq<NavItem>, k: int)
    ensures Seqs.Filter(Insert(x, s), HasOrder(k)) == Seqs.Filter([x] + s, HasOrder(k))
  {
    if s == [] {
    } else if x.order <= s[0].order {
    } else {
      assert s == [s[0]] + s[1..];
      InsertStable(x, s[1..], k);
      Seqs.FilterAppend([s[0]], Insert(x, s[1..]), HasOrder(k));
      Seqs.FilterAppend([x], s[1..], HasOrder(k));
      Seqs.FilterAppend([s[0]], s[1..], HasOrder(k));
      Seqs.FilterAppend([x], s, HasOrder(k));
    }
  }

  /** Entries with equal `order` keep their relative order (stability). */
  lemma {:induction false} SortStable(s: seq<NavItem>, k: int)
    ensures Seqs.Filter(SortByOrder(s), HasOrder(k)) == Seqs.Filter(s, HasOrder(k))
  {
    if s != [] {
      assert s == [s[0]] + s[1..];
      SortStable(s[1..], k);
      InsertStable(s[0], SortByOrder(s[1..]), k);
      Seqs.FilterAppend([s[0]], SortByOrder(s[1..]), HasOrder(k));
      Seqs.FilterAppend([s[0]], s[1..], HasOrder(k));
    }
  }

  // ---------------------------------------------------------------------
  // The navigation-switch lock

  /** A held lock older than this many milliseconds is released. */
  const StaleAfterMillis: int := 3000

  datatype NavLock = NavLock(inProgress: bool, lastAttempt: int)

  /** The navigation targets: the four section icons, or anything else. */
  datatype Target = LeaderboardTab | AchievementsTab | RewardsTab | InboxTab | OtherTarget

  datatype SwitchOutcome =
    | Refused               // a switch is in progress
    | Switching(to: Target) // the section change has started
    | AlreadyShown(ranCallback: bool)

  /** The first two statements of navigationSwitch: drop a stale lock. */
  function ReleaseStale(lock: NavLock, now: int): (r: NavLock)
    ensures r.lastAttempt == lock.lastAttempt
    ensures r.inProgress <==> lock.inProgress && now <= lock.lastAttempt + StaleAfterMillis
  {
    if lock.inProgress && lock.lastAttempt + StaleAfterMillis < now then lock.(inProgress := false) else lock
  }

  /**
   * navigationSwitch as written: when the target is already the active tab
   * the lock is released only if a callback was passed.
   */
  function NavigationSwitchAsWritten(lock: NavLock, now: int, target: Target, targetShown: bool, hasCallback: bool)
    : (r: (NavLock, SwitchOutcome))
    ensures r.1 == Refused <==> lock.inProgress && now <= lock.lastAttempt + StaleAfterMillis
    ensures r.1 == Refused ==> r.0 == lock
    ensures r.1 != Refused ==> r.0.lastAttempt == now
    ensures r.1.Switching? <==> r.1 != Refused && !targetShown
    ensures r.1.Switching? ==> r.0.inProgress && r.1.to == target
    ensures r.1.AlreadyShown? ==> (r.0.inProgress <==> !hasCallback) && r.1.ranCallback == hasCallback
  {
    var l := ReleaseStale(lock, now);
    if l.inProgress then (l, Refused)
    else
      var held := NavLock(true, now);
      if !targetShown then (held, Switching(target))
      else if hasCallback then (held.(inProgress := false), AlreadyShown(true))
      else (held, AlreadyShown(false))
  }

  /**
   * navigationSwitch with the lock released on the already-shown branch
   * whether or not a callback was passed.
   */
  function NavigationSwitch(lock: NavLock, now: int, target: Target, targetShown: bool, hasCallback: bool)
    : (r: (NavLock, SwitchOutcome))
    ensures r.1 == Refused <==> lock.inProgress && now <= lock.lastAttempt + StaleAfterMillis
    ensures r.1 == Refused ==> r.0 == lock
    ensures r.1 != Refused ==> r.0.lastAttempt == now
    ensures r.1.Switching? <==> r.1 != Refused && !targetShown
    ensures r.1.Switching? ==> r.1.to == target
    ensures r.1 != Refused ==> (r.0.inProgress <==> r.1.Switching?)
    ensures r.1.AlreadyShown? ==> r.1.ranCallback == hasCallback
  {
    var l := ReleaseStale(lock, now);
    if l.inProgress then (l, Refused)
    else if !targetShown then (NavLock(true, now), Switching(target))
    else (NavLock(false, now), AlreadyShown(hasCallback))
  }

  /**
   * The end of a section change (the section loader's callback): the four
   * known sections release the lock; an unknown target never does, so its
   * lock lasts until it goes stale.
   */
  function SwitchCompleted(lock: NavLock, target: Target): (r: NavLock)
    ensures r.lastAttempt == lock.lastAttempt
    ensures r.inProgress <==> lock.inProgress && target == OtherTarget
  {
    if target == OtherTarget then lock else lock.(inProgress := false)
  }

  /**
   * As written, clicking the tab that is already shown (the click handler
   * passes no callback) keeps the lock, and every switch in the next three
   * seconds is refused although nothing is in progress.
   */
  lemma AsWrittenNoopBlocksNextSwitch(lock: NavLock, now: int, later: int, target: Target, other: Target, shown: bool, cb: bool)
    requires !lock.inProgress
    requires now <= later <= now + StaleAfterMillis
    ensures var (l1, o1) := NavigationSwitchAsWritten(lock, now, target, true, false);
            && o1 == AlreadyShown(false)
            && NavigationSwitchAsWritten(l1, later, other, shown, cb).1 == Refused
  {
  }

  /** With the lock released on the no-op branch, the next switch is admitted at once. */
  lemma NoopNeverBlocks(lock: NavLock, now: int, later: int, target: Target, other: Target, shown: bool, cb: bool)
    requires !lock.inProgress
    ensures var (l1, o1) := NavigationSwitch(lock, now, target, true, cb);
            && o1 == AlreadyShown(cb)
            && NavigationSwitch(l1, later, other, shown, cb).1 != Refused
  {
  }

  /** The corrected lock is held exactly while a section change is in flight. */
  lemma LockHeldOnlyWhileSwitching(lock: NavLock, now: int, later: int, target: Target, shown: bool, cb: bool)
    requires !lock.inProgress
    ensures var (l1, o1) := NavigationSwitch(lock, now, target, shown, cb);
            (l1.inProgress <==> o1.Switching?)
            && (o1.Switching? && target != OtherTarget ==> !SwitchCompleted(l1, target).inProgress)
  {
  }

  // ---------------------------------------------------------------------
  // Countdown label

  /** The label shown for the active contest (its `statusCode` and the times left). */
  datatype TimeLabel =
    | StartsIn(untilStart: int)
    | MiniStarting
    | Starting
    | EndsIn(untilEnd: int)
    | Finishing
    | Finished

  /** updateLeaderboardTime: `untilStart`/`untilEnd` are the millisecond differences. */
  function StatusLabel(statusCode: int, untilStart: int, untilEnd: int): (r: TimeLabel)
    ensures r == MiniStarting <==> untilStart <= 0 && statusCode == 0
    ensures r == Starting <==> statusCode == 1
    ensures r.EndsIn? <==> statusCode == 2 && untilEnd > 0
    ensures r.EndsIn? ==> r.untilEnd == untilEnd
    ensures r == Finishing <==> statusCode == 3 || (statusCode == 2 && untilEnd <= 0)
    ensures r == Finished <==> statusCode >= 4
    ensures r.StartsIn? <==> statusCode < 0 || (statusCode == 0 && untilStart > 0)
  {
    if untilStart <= 0 && statusCode == 0 then MiniStarting
    else if statusCode == 1 then Starting
    else if statusCode == 2 then (if untilEnd <= 0 then Finishing else EndsIn(untilEnd))
    else if statusCode == 3 then Finishing
    else if statusCode >= 4 then Finished
    else StartsIn(untilStart)
  }

  function Phase(l: TimeLabel): nat
  {
    match l
    case StartsIn(_) => 0
    case MiniStarting => 0
    case Starting => 1
    case EndsIn(_) => 2
    case Finishing => 3
    case Finished => 4
  }

  /** A contest whose status advances never shows an earlier phase. */
  lemma StatusLabelMonotone(s1: int, s2: int, untilStart: int, untilEnd: int)
    requires 0 <= s1 <= s2
    ensures Phase(StatusLabel(s1, untilStart, untilEnd)) <= Phase(StatusLabel(s2, untilStart, untilEnd))
  {
  }

  // ---------------------------------------------------------------------
  // Truncation

  const RewardLabelLimit: nat := 80
  const RewardDescriptionLimit: nat := 200
  const MessageSubjectLimit: nat := 36
  const MessageContentLimit: nat := 60
  const TournamentDescriptionLimit: nat := 100

  /** A text longer than the limit is cut to its first `limit` characters followed by three dots. */
  function Truncate(text: string, limit: nat): (r: string)
    ensures |text| <= limit ==> r == text
    ensures |text| > limit ==> |r| == limit + 3 && r[..limit] == text[..limit] && r[limit..] == "..."
    ensures |r| <= limit + 3
  {
    if |text| > limit then text[..limit] + "..." else text
  }

  /** Truncating a truncated text changes nothing. */
  lemma TruncateIdempotent(text: string, limit: nat)
    ensures Truncate(Truncate(text, limit), limit) == Truncate(text, limit)
  {
    if |text| > limit {
      var t := Truncate(text, limit);
      assert t[..limit] == text[..limit];
    }
  }
}
