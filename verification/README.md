# Leaderboard widget: data reconciliation and refresh, in Dafny

This project models the decision logic of the gamification widget's two
controllers. `LbWidget.js` fetches competitions, picks the active competition
and contest, expands reward ranks, runs the two self-re-arming refresh loops
and revalidates opt-ins. `MainWidget.js` projects leaderboard rows into the
main view and guards tab switches.

The DOM, Ajax and timers are taken out. What is left are pure functions over
immutable records (`Competition`, `Contest`, `Reward`, `Row`) and a small
widget state record. The state record has explicit transitions for:

- the timer slots;
- the opt-in counter;
- the navigation lock.

Modules:

- `Types`: the records and the competition status codes 3, 5 and 7.
- `Seqs`: order-preserving filtering, plus `join` and one-character `split`.
- `RewardRanks`: JavaScript `parseInt` and the `rewardRank` expansion, with a
  reference semantics for well-formed rank texts.
- `Selection`: bucketing, sticky selection in `prepareActiveCompetition`, and
  the active contest in `setActiveCompetition`.
- `Leaderboard`: the top/remaining split, shared-rank counts, placeholder rows,
  member detection, name masking and `getReward`.
- `Timers`: timer slots and pending timers. `clearTimeout`/`setTimeout` become
  map updates.
- `OptIn`: the shared revalidation counter.
- `Refresh`: the outer loop (`activeDataRefresh`), the inner loop
  (`leaderboardDataRefresh`), the selection chain between them, and
  `stopActivity`. Each handler is one synchronous stretch of the event loop.
  It returns the requests it sends and the view updates it triggers. Replies
  and timer expiries arrive later as `Event`s.
- `Navigation`: `navigationSorter` and the sort, the navigation-switch lock,
  the countdown label and text truncation.
- `Achievements`: the id-deduplicating merge of member-group achievements.
- `Filters`: the query filters of the two competition-list requests.

Behaviour of the code worth knowing, all of it modelled as written:

- **Detail reload.** `prepareActiveCompetition` reloads the competition detail
  for every non-null selection, even when the id did not change. Only the
  stored `activeCompetition`/`activeCompetitionId` are guarded by the id
  comparison.
- **Outer timer.** `activeDataRefresh` re-arms its timer synchronously when it
  is called, not when the fetch chain settles.
- **Ineligible chain.** In `activeDataRefresh`, when the competition is not
  eligible, rows are still fetched for a visible main widget. The inner loop
  is restarted as well.
- **Deactivation.** `deactivateCompetitionsAndLeaderboards` clears
  `leaderboard.refreshInterval`, not `refreshLbDataInterval`. The inner loop
  therefore survives a deactivation, while the main widget is marked
  inactive (`Refresh.Deactivate`, `Refresh.PrepareStep`).
- **Opt-in.** The reloaded competition replaces the active one as it
  arrives; the active contest is not recomputed (`Refresh.Confirm`).
- **Null competition.** `leaderboardDataRefresh` reads `optin` of a null
  active competition in its second disjunct. That throws a TypeError, and the
  loop is not re-armed (`Refresh.InnerCheck`, `Refresh.LeaderboardDataRefresh`).
- **Opt-in counter.** The revalidation counter is one variable shared by every
  revalidation chain, as in the code.

## Model

| member | source | states |
|---|---|---|
| Seqs.Split | src/javascript/modules/LbWidget.js:598-603 | `split` on one character: never empty, no part contains the separator, joining the parts with it gives the input back, one part iff the separator is absent |
| Seqs.SplitJoin | src/javascript/modules/LbWidget.js:598 | splitting a join of separator-free parts returns the parts |
| Seqs.FilterComplement | src/javascript/modules/MainWidget.js:1147-1153 | filtering with a predicate and with its negation splits a sequence without loss or duplication |
| RewardRanks.Range | src/javascript/modules/LbWidget.js:606-608 | the `for (i = start; i <= end; i++)` push: `end - start + 1` ranks ascending from `start`, none when `start > end` |
| RewardRanks.ParseInt | src/javascript/modules/LbWidget.js:604-610 | `parseInt` without a radix: NaN for a blank text or one starting with anything but a sign or a digit; a number when a nonzero digit comes first; never positive after a minus sign |
| RewardRanks.ExpandPart | src/javascript/modules/LbWidget.js:601-611 | a part without `-` pushes exactly one value; a range part pushes consecutive ascending numbers and never NaN |
| RewardRanks.ExpandRankText | src/javascript/modules/LbWidget.js:597-612 | a text without a comma expands as a single part |
| RewardRanks.ParseIntOfNatToString | src/javascript/modules/LbWidget.js:604-610 | `parseInt` of a decimal rendering returns the number |
| RewardRanks.ExpandRenderedRankText | src/javascript/modules/LbWidget.js:597-614 | a well-formed rank text (comma-separated singles and `a-b` ranges) expands to exactly the ranks it denotes, in order |
| RewardRanks.ExpandExample | src/javascript/modules/LbWidget.js:597-614 | `"1-3,5"` expands to 1, 2, 3, 5 |
| RewardRanks.ExpandReward | src/javascript/modules/LbWidget.js:597-615 | a string rank becomes its expansion; a rank that is not a string, and the value and symbol, are kept |
| RewardRanks.ExpandRewards | src/javascript/modules/LbWidget.js:596-620 | rewards keep their number and order; each is expanded on its own |
| RewardRanks.ExpandRewardsIdempotent | src/javascript/modules/LbWidget.js:597 | expanding an expanded reward list changes nothing |
| Selection.BucketAvailable | src/javascript/modules/LbWidget.js:391-399 | `ready` holds exactly the status-3 entries and `active` exactly the status-5 ones, with multiplicity and in fetch order; the finished bucket and the sticky id are untouched |
| Selection.BucketFinished | src/javascript/modules/LbWidget.js:463-469 | `finished` holds exactly the status-7 entries in fetch order; the other buckets are untouched |
| Selection.BucketsReplaced | src/javascript/modules/LbWidget.js:391-392 | the new buckets do not depend on the old ones: they are replaced, never merged |
| Selection.LastWithId | src/javascript/modules/LbWidget.js:487-501 | the scan keeps the last entry with the id; none iff no entry has it |
| Selection.Prepare | src/javascript/modules/LbWidget.js:482-533 | a sticky hit selects the last match in the order active, ready, finished and keeps the id; a miss resets the id; the fallback is `active[0]`, then `ready[0]`, else deactivation; the stored competition is overwritten only when the id differs |
| Selection.FallbackNeverFinished | src/javascript/modules/LbWidget.js:506-512 | without a sticky match, the selection comes from the active or ready bucket, never the finished one |
| Selection.PrepareStable | src/javascript/modules/LbWidget.js:522-526 | running the selection again on its own result selects the same competition and changes nothing |
| Selection.FirstOpenContest | src/javascript/modules/LbWidget.js:586-589 | the first contest with status below 7; none iff every contest is finished |
| Selection.ActivateContest | src/javascript/modules/LbWidget.js:591-620 | missing rewards become the empty list; rewards keep their order, value and symbol; a rank text becomes the list its expansion gives, and every other reward is kept as it is |
| Selection.ActivateContestIdempotent | src/javascript/modules/LbWidget.js:591-620 | activating an activated contest changes nothing |
| Selection.SetActiveCompetition | src/javascript/modules/LbWidget.js:577-628 | the detail becomes the active competition; the active contest is the activated first open contest, or none iff all are finished |
| Leaderboard.SplitRows | src/javascript/modules/MainWidget.js:1147-1153 | top rows have `rank <= topResultSize` and the rest higher ranks; both keep input order, and together they hold exactly the input rows |
| Leaderboard.CountRank | src/javascript/modules/MainWidget.js:1013-1017 | the rescan counts exactly the occurrences of the rank among the ranks seen before |
| Leaderboard.SharedRankCounts | src/javascript/modules/MainWidget.js:1012-1018 | each row's count is the number of earlier rows with the same rank; 0 iff it is the first with that rank |
| Leaderboard.Placeholders | src/javascript/modules/MainWidget.js:942-969 | `topResultSize` top placeholders ranked from 1, then ranks up to `defaultEmptyList`, each named and scored `--` with empty ids |
| Leaderboard.PlaceholderRanks | src/javascript/modules/MainWidget.js:947-968 | together the placeholders are ranked 1..`defaultEmptyList` without gaps |
| Leaderboard.PlaceholdersSplitAsRows | src/javascript/modules/MainWidget.js:942-972 | splitting the placeholders by rank gives back the top and remaining placeholder lists |
| Leaderboard.SliceFromStart | src/javascript/modules/MainWidget.js:1021 | `slice(0, n)` is a prefix of `min(n, length)` characters; a negative `n` leaves all but the last `-n`, or nothing |
| Leaderboard.DisplayName | src/javascript/modules/MainWidget.js:999-1022 | the member's row shows `you`; other names are cut to `memberNameLength` characters followed by `*****` when the length is non-zero; a name equal to `you` is never masked |
| Leaderboard.MemberMatchWidens | src/javascript/modules/MainWidget.js:999-1004 | `useLbMemberId` only widens the member match: the extra rows are those whose leaderboard member id, but not reference id, is the member's |
| Leaderboard.RowName | src/javascript/modules/MainWidget.js:999-1022 | the member's own row shows `you`; other rows show their name, or a masked prefix followed by `*****` |
| Leaderboard.MemberRowShowsYou | src/javascript/modules/MainWidget.js:999-1022 | a row whose reference id is the member's shows `you` under either setting; another member's masked name is at most `memberNameLength + 5` long |
| Leaderboard.MaskRevealsPrefixOnly | src/javascript/modules/MainWidget.js:1020-1022 | a masked name is at most `memberNameLength + 5` characters long |
| Leaderboard.GetReward | src/javascript/modules/MainWidget.js:1050-1063 | empty when there is no active contest or no reward's rank list contains the rank |
| Leaderboard.GetRewardSingle | src/javascript/modules/MainWidget.js:1055-1058 | a rank covered by one reward shows that reward's formatted text alone |
| Leaderboard.GetRewardSnoc | src/javascript/modules/MainWidget.js:1050-1063 | adding a reward: one that does not cover the rank changes nothing; one that does is appended, after `, ` when an earlier reward covers the rank |
| Leaderboard.DefaultFormat | src/javascript/modules/LbWidget.js:247-255 | the default formatter ends with the value and puts the unit symbol, when there is one, in front of it |
| Leaderboard.GetRewardExample | src/javascript/modules/MainWidget.js:1050-1063 | with the default formatter, rewards `$10` for ranks 1-2 and `5` for rank 1 give `$10, 5` for rank 1, `$10` for rank 2 and nothing for rank 3 |
| Leaderboard.GetRewardEmptyIff | src/javascript/modules/MainWidget.js:1050-1063 | with non-empty formatted texts, the result is empty iff no reward covers the rank |
| Timers.Clear | src/javascript/modules/LbWidget.js:1268-1270 | after `clearTimeout` on a slot, no timer of that slot is pending and the other pending timers are untouched |
| Timers.Arm | src/javascript/modules/LbWidget.js:1281-1283 | `setTimeout` adds a fresh pending timer and records it in its slot |
| Timers.ArmWithoutClearDoubles | src/javascript/modules/LbWidget.js:1268-1270 | arming a slot without clearing it first leaves two of its timers pending |
| Timers.Rearm | src/javascript/modules/LbWidget.js:1268-1285 | clear-then-arm leaves exactly one pending timer in the slot and keeps the others |
| Timers.AtMostOnePending | src/javascript/modules/LbWidget.js:1268-1285 | in a valid timer state each slot has at most one pending timer |
| Timers.Fire | src/javascript/modules/LbWidget.js:1281-1283 | a firing timer stops being pending; nothing else changes |
| Timers.StopActivity | src/javascript/modules/LbWidget.js:1371-1397 | no loop timer stays pending; only one-shot timers (an opt-in retry, the layout callback) survive |
| Timers.ClearAllSlots | src/javascript/modules/LbWidget.js:1374-1392 | clearing the four slots in turn cancels every loop timer |
| OptIn.OnReply | src/javascript/modules/LbWidget.js:1244-1263 | `optin === false` increments the counter and retries while it stays below 5, else resets it to 0 and gives up; `true` delivers with the counter unchanged; a non-boolean stops silently |
| OptIn.Chain | src/javascript/modules/LbWidget.js:1245-1262 | a chain uses at most one load per reply; a chain that ended saw only `false` before its last reply; delivery follows a `true` reply |
| OptIn.NeverOptedInGivesUp | src/javascript/modules/LbWidget.js:1249-1257 | with only `false` replies the chain gives up after `5 - counter` loads and resets the counter, never delivering |
| OptIn.DeliveryKeepsCounter | src/javascript/modules/LbWidget.js:1249-1260 | failures followed by a `true` deliver and leave the counter raised by the failures |
| Refresh.InnerCheck | src/javascript/modules/LbWidget.js:1272-1275 | the inner loop's test throws iff there is no active competition, and otherwise agrees with eligibility |
| Refresh.Eligible | src/javascript/modules/LbWidget.js:1307-1310 | a competition is eligible when it needs no opt-in or the member has opted in; none is never eligible |
| Refresh.RowsRequest | src/javascript/modules/LbWidget.js:631-685 | a rows request for the active contest with `_limit` 0 under the mini scoreboard; none iff there is no active contest |
| Refresh.LeaderboardDataRefresh | src/javascript/modules/LbWidget.js:1265-1286 | rows are requested iff the competition is eligible and has a contest; one inner timer is pending afterwards unless it threw; other timers are kept |
| Refresh.ActiveDataRefresh | src/javascript/modules/LbWidget.js:1288-1350 | asks for the available competitions and leaves exactly one outer timer pending, keeping the other timers |
| Refresh.PrepareStep | src/javascript/modules/LbWidget.js:519-531 | a selection requests that competition's details; deactivation clears the views, marks the main widget inactive and requests nothing; neither touches the inner or outer loop |
| Refresh.Deactivate | src/javascript/modules/LbWidget.js:1353-1369 | clears only `leaderboard.refreshInterval` and marks the main widget inactive (MainWidget.js:1402-1405); nothing else changes |
| Refresh.OnAvailable | src/javascript/modules/LbWidget.js:391-408 | buckets the reply; then asks for finished competitions when they are shown, and otherwise runs the selection on the new buckets and requests the chosen competition's details or deactivates |
| Refresh.OnFinished | src/javascript/modules/LbWidget.js:463-475 | buckets the finished reply, then runs the selection on the new buckets and requests the chosen competition's details or deactivates |
| Refresh.AfterSelection | src/javascript/modules/LbWidget.js:1297-1341 | nothing happens without a visible view; an eligible contest's rows are requested with the restarting callback; otherwise rows are requested only for the main widget and the inner loop restarts at once; the widget state apart from its timers is kept |
| Refresh.OnSelectedDetail | src/javascript/modules/LbWidget.js:526-528 | the detail becomes the active competition with its first open contest; with a visible view an eligible contest's rows are requested, an ineligible competition restarts the inner loop, and without one nothing is sent |
| Refresh.OnRows | src/javascript/modules/LbWidget.js:674-677 | stores the rows; only the restarting callback touches timers or sends requests |
| Refresh.StartRevalidation | src/javascript/modules/LbWidget.js:1245-1248 | reloads the active competition for the button that asked |
| Refresh.RequestOptIn | src/javascript/modules/LbWidget.js:1224-1233 | an opt-in click sends the opt-in request for the active competition and changes nothing else |
| Refresh.OnOptInReply | src/javascript/modules/LbWidget.js:1234-1240 | only a 200 reply starts the revalidation; any other status sends nothing |
| Refresh.Confirm | src/javascript/modules/LbWidget.js:1641-1690 | every button stores the reloaded competition as active; the score-board button also deactivates, empties the rows, re-opens the main widget and schedules the outer loop's restart; the other two only update their view |
| Refresh.OnRevalidationDetail | src/javascript/modules/LbWidget.js:1248-1262 | the counter follows `OptIn.OnReply`; a retry arms a reload for the same button; `optin: true` stores the competition, anything else leaves it; a new timer is armed iff the reply is a retry or the score-board button confirms |
| Refresh.ConfirmedOptInPollsRows | src/javascript/modules/LbWidget.js:1641-1690 | after a confirmed opt-in the stored competition is eligible, so the inner loop's next tick polls rows for an active contest |
| Refresh.OnTimer | src/javascript/modules/LbWidget.js:1281-1283 | the outer loop's timer and the layout callback fetch the competitions and re-arm the outer loop; the inner loop's timer polls rows iff eligible and throws without a competition; a retry reloads the competition; the other slots only stop being pending |
| Refresh.StopActivity | src/javascript/modules/LbWidget.js:1371-1397 | no loop timer is pending afterwards and nothing else changes |
| Refresh.StartThenStop | src/javascript/modules/LbWidget.js:1288-1392 | starting the outer loop and stopping leaves no loop timer pending |
| Refresh.StopDoesNotCancelReplies | src/javascript/modules/LbWidget.js:1371-1397 | a competition reply still in flight after `stopActivity` starts the inner loop again |
| Refresh.Handle | src/javascript/modules/LbWidget.js:1265-1397 | every event keeps the timer state valid; `stopActivity` leaves no loop timer; a cleared timer's expiry changes nothing |
| Refresh.Run | src/javascript/modules/LbWidget.js:1265-1350 | any run of events keeps the timer state valid |
| Refresh.RunKeepsOneTimerPerSlot | src/javascript/modules/LbWidget.js:1268-1293 | whatever the order of events, no slot ever holds two pending timers |
| Navigation.NavigationSorter | src/javascript/modules/MainWidget.js:181-189 | -1, 1 or 0 as the first order is smaller, larger, or neither (equal or NaN) |
| Navigation.SorterAntisymmetric | src/javascript/modules/MainWidget.js:181-189 | swapping the items negates the comparison |
| Navigation.Insert | src/javascript/modules/MainWidget.js:195 | inserting adds exactly the new item |
| Navigation.InsertSorted | src/javascript/modules/MainWidget.js:195 | insertion keeps a sorted list sorted |
| Navigation.SortByOrder | src/javascript/modules/MainWidget.js:192-195 | the navigation list is a permutation of its input, ascending by `order` |
| Navigation.SortStable | src/javascript/modules/MainWidget.js:195 | items with equal `order` keep their relative order |
| Navigation.ReleaseStale | src/javascript/modules/MainWidget.js:2087-2089 | the lock stays held iff it was held and is at most 3000 ms old |
| Navigation.NavigationSwitchAsWritten | src/javascript/modules/MainWidget.js:2083-2188 | refused iff a switch is in progress and the lock is not stale; otherwise the lock is taken with the current time; on an already shown target it is released only when a callback was passed |
| Navigation.NavigationSwitch | src/javascript/modules/MainWidget.js:2083-2188 | as above, but afterwards the lock is held iff a section change was started |
| Navigation.SwitchCompleted | src/javascript/modules/MainWidget.js:2109-2176 | the four section loaders release the lock; an unknown target keeps it |
| Navigation.AsWrittenNoopBlocksNextSwitch | src/javascript/modules/MainWidget.js:2183-2186 | clicking the shown tab without a callback keeps the lock, so every switch in the next 3000 ms is refused |
| Navigation.NoopNeverBlocks | src/javascript/modules/MainWidget.js:2183-2186 | with the corrected lock, a no-op switch never blocks the next one |
| Navigation.LockHeldOnlyWhileSwitching | src/javascript/modules/MainWidget.js:2091-2186 | the corrected lock is held exactly while a section change is in flight, and a known section releases it |
| Navigation.StatusLabel | src/javascript/modules/MainWidget.js:1180-1195 | contest status 0 past its start says starting; 1 says starting; 2 shows the time to the end, or finishing once it is past; 3 says finishing; 4 and above say finished; anything else counts down to the start |
| Navigation.StatusLabelMonotone | src/javascript/modules/MainWidget.js:1180-1195 | a higher status never shows an earlier phase |
| Navigation.Truncate | src/javascript/modules/MainWidget.js:1942-1943 | texts up to the limit are kept; longer ones become their first `limit` characters plus `...` |
| Navigation.TruncateIdempotent | src/javascript/modules/MainWidget.js:1969-1970 | truncating a truncated text changes nothing |
| Achievements.AddIfNew | src/javascript/modules/LbWidget.js:780-790 | a fetched achievement is appended iff no stored one has its id |
| Achievements.Merge | src/javascript/modules/LbWidget.js:779-791 | the merged list is at least as long as the stored one and at most as long as both together |
| Achievements.Fresh | src/javascript/modules/LbWidget.js:779-791 | reference: the fetched entries with ids new to the store and to earlier fetched entries, distinct, in fetch order |
| Achievements.MergeAppendsFresh | src/javascript/modules/LbWidget.js:779-791 | the merge appends exactly the fresh entries to the stored list |
| Achievements.MergeProperties | src/javascript/modules/LbWidget.js:779-791 | the stored list stays a prefix; the ids afterwards are the stored ones plus the fetched ones; appended entries are fetched, new and distinct; distinct ids stay distinct |
| Achievements.TotalCount | src/javascript/modules/LbWidget.js:792 | `totalCount` is the stored length plus the number of fresh entries |
| Achievements.MergeIdempotent | src/javascript/modules/LbWidget.js:779-791 | merging the same batch again adds nothing |
| Filters.OptionalFilters | src/javascript/modules/LbWidget.js:366-376 | at most three conditional filters; each one is present when its setting is on |
| Filters.OptionalFiltersByKey | src/javascript/modules/LbWidget.js:366-376 | each conditional filter is present iff its setting is on: currency a non-empty string, game lookup enforced with a game id, groups with an anonymous member |
| Filters.AvailableFilters | src/javascript/modules/LbWidget.js:357-378 | statuses 3 to 5, sorted by end date, the language and limit 999, then the conditional filters |
| Filters.FinishedFilters | src/javascript/modules/LbWidget.js:430-449 | status 7, limit 10, sorted by end date and the language, then the conditional filters |
| Filters.FiltersByKey | src/javascript/modules/LbWidget.js:357-449 | a request carries the currency, product or group filter iff the settings switch it on |
| Filters.QueryString | src/javascript/modules/LbWidget.js:382 | empty iff there are no filters; otherwise `?` and the filters joined by `&` |

## Left out

- I/O: the Ajax transport, its `abort()` superseding, `JSON.parse` and the `partialFunctions` parser hooks (taken as identity), the DOM, CSS and innerHTML templating, the preloader, and the identicon images.
- Wall-clock time: timers are slots and pending ids. The countdown's millisecond differences come from `moment`, so they are parameters of `Navigation.StatusLabel`.
- The 10 000 ms and 3 000 ms loop delays, and the 100 ms retry delay, are recorded as constants. Time does not advance in the model.
- `utils/stringContains`, `mapObject` and `objectIterator` are not part of this model. They are taken to be a substring test and in-order iteration.
- `RewardRanks.ParseInt`: models the integer prefix, sign, leading whitespace and `0x` prefix. It leaves out `parseInt`'s floating-point rounding of numbers of 16 or more digits.
- Whitespace: the model treats ASCII blanks, NBSP, BOM and the line and paragraph separators as JavaScript whitespace. Other Unicode space characters are left out.
- `Navigation.SortByOrder`: sorts by integer orders only. A NaN `order` makes the comparator inconsistent, and the engine then decides the order.
- `Navigation.Truncate`: counts characters, not UTF-16 code units.
- Object aliasing: in `setActiveCompetition` the active contest is also an element of the active competition's `contests`. The expansion therefore shows through that list too. The model keeps the competition detail as it arrived.
- `Navigation.SwitchCompleted`: the 150/250/30 ms display timeouts and the loaders themselves are left out. Only the lock release at the end of each loader callback is modelled.
- The `OtherTarget` branch keeps the navigation lock until it goes stale. That is modelled as written and not corrected, because the click handlers only pass the four section icons.
- The mini scoreboard's `clearAll` and `initLayout` are not part of this model. `Refresh.Deactivate` keeps its active flag.
- The main widget's `initLayout` is modelled only through the score-board opt-in: it marks the widget active and loads its leaderboard. Opening and closing the widgets from the UI are not events of the model.
- After a score-board opt-in, the 30 ms layout delay, `resetNavigation` and its 70 ms delay are one `ShowLayout` timer. The navigation switch inside `resetNavigation` is not modelled. The 200 ms hiding of the score-board container is left out as DOM.
- The `checking` class that disables an opt-in button until its callback runs is DOM state. It is left out, so a chain that gives up leaves the button disabled in the widget but not in the model.
- Leaderboard rows are stored by `Refresh.OnRows`. Rendering them (`leaderboardRow`, `leaderboardRowUpdate`, missing-member visibility) is left out.
- Also left out:
  - the URL path templating (`:space`, `:id`);
  - the leaderboard request's `rankings` and `memberId` filters;
  - the achievements and rewards list requests.

## Findings

| source | as written | input that shows it | evidently intended | confidence | as-written member | corrected member |
|---|---|---|---|---|---|---|
| src/javascript/modules/MainWidget.js:2183-2186 | When the target tab is already shown, `navigationSwitchInProgress` is set back to false only inside `typeof callback === 'function'`. The click handler (src/javascript/modules/LbWidget.js:1798) and the reset path (src/javascript/modules/MainWidget.js:2206) pass no callback. | A free lock; the member clicks the tab that is already shown, then clicks another tab within 3000 ms. The second switch is refused. | No section change starts on this branch, so the lock should be released whether or not a callback is passed. | not executed; high | Navigation.NavigationSwitchAsWritten (Navigation.AsWrittenNoopBlocksNextSwitch) | Navigation.NavigationSwitch (Navigation.NoopNeverBlocks, Navigation.LockHeldOnlyWhileSwitching) |
