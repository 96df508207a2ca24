# BaseScan Portfolio — a Dafny model of the vault dashboard's core

This project models the logic of the BaseScan Portfolio dashboard, a web front end for a
simple ETH vault contract on Base. It covers these parts:

- **Vault history** (`fetchVaultHistory`): deposit and withdrawal logs are tagged with their
  kind and their block's timestamp. They are merged, stably sorted by timestamp, and folded
  into a running wei balance series, with a zero baseline one day before the first event.
- **User totals** (`fetchUserTxStats`): two independent sums of the user's logs. The model
  proves that over the same logs, the final point of the series equals total deposits minus
  total withdrawals. On the dashboard the two read different logs: the chart reads every
  user's vault events, while the totals read only the connected user's.
- **Ledger** (`TransactionHistory.fetchHistory`): the user's logs become rows, newest block
  first.
- **Dashboard state**: the React state those fetches write, kept as a class whose methods
  update it. This includes what happens with no client, no address or a failed read.
- **Withdrawals**: the bigint checks `handleWithdraw` makes before it submits a withdrawal,
  and the fee product `GasFeeEstimator` shows.
- **`withRetry` / `withRpcRetry`**: how the options merge, the attempt loop, the
  user-rejection short circuit, the backoff schedule and its total wait, and the `onRetry`
  notifications.
- **`useDebounce` and `debounce`**: each is a class driven by explicit timer events. Each is
  proved against a replay function: a burst settles to its last value, and the closure
  invokes `func` once per burst.
- **`useAutoRefresh`**: the in-flight guard, the `lastRefreshed` stamp, and the interval's
  lifecycle across effect runs. Proved: never more than one interval is live.
- **Formatters**: `truncateAddress` with JavaScript's `slice` semantics (negative and
  clamped indices, and `slice(-0)`), and `isValidEthereumAddress`.
- **Keyboard shortcuts**: the first-match `keydown` handler and `formatKeyCombo`.
- **Network validation**: the two network flags, the chain name table, and the guarded
  action wrapper.
- **`CountUp.formatNumber`**: the lookahead regex `\B(?=(\d{3})+(?!\d))`, modelled position
  by position. It is proved to group digits by threes from the right.

Amounts are wei and unbounded (the source uses `bigint`). Timestamps are integer
milliseconds. Everything asynchronous becomes an explicit input: the chain reads are a
`ChainRead` value, and timers and intervals are events. React state setters take effect at
once.

Behaviour of the code that a reader might not expect; the model follows the code:

- Vault events are sorted by block timestamp with JavaScript's stable sort. They are not
  sorted by `(blockNumber, logIndex)`, and no log index is read.
- The ledger is sorted by block number alone.
- `withRetry` rethrows the last raw error when it runs out of attempts. It does not wrap it
  in an "exhausted" error. With `maxAttempts <= 0` it throws `undefined` without calling
  `fn`.
- There is no fetch session or staleness guard in the code. A later fetch simply overwrites
  the state.
- A failed `fetchUserTxStats` read resets the totals to `null` rather than keeping the last
  good value.

## Model

| member | source | states |
|---|---|---|
| VaultHistory.Combine | src/components/portfolio-dashboard.tsx:219-233 | the tagged and sorted events; specified by VaultHistory.FetchedBlocksCoverLogs and CombineSortedStable |
| VaultHistory.Series | src/components/portfolio-dashboard.tsx:235-252 | the chart series; specified by VaultHistory.BuildSeries, SeriesInTimeOrder and SeriesLast |
| VaultHistory.TotalAmount | src/components/portfolio-dashboard.tsx:170-171 | the `reduce` sum of log amounts; specified by VaultHistory.NetOfTagged and TotalsMatchFinalBalance |
| VaultHistory.Stats | src/components/portfolio-dashboard.tsx:170-171 | the two user totals; specified by VaultHistory.TotalsMatchFinalBalance |
| VaultHistory.BlockMap | src/components/portfolio-dashboard.tsx:214-217 | every fetched block's number is a key, every key comes from a fetched block, and a consistent block list maps each number to its timestamp |
| VaultHistory.ToEvents | src/components/portfolio-dashboard.tsx:219-231 | tagging succeeds exactly when every log's block is in the map; then there is one event per log, in log order, with the block's timestamp in milliseconds |
| VaultHistory.FetchedBlocksCoverLogs | src/components/portfolio-dashboard.tsx:214-216 | fetching one block per log (deposits then withdrawals) guarantees tagging and merging never fail |
| VaultHistory.CombineSortedStable | src/components/portfolio-dashboard.tsx:233 | the merged list is a permutation of the tagged events, ordered by timestamp, and events with equal timestamps keep deposits-then-withdrawals order |
| VaultHistory.BuildSeries | src/components/portfolio-dashboard.tsx:235-252 | the balance loop produces the series: no points for no events, else a zero baseline one day before the first event, then each event's time with the running deposits-minus-withdrawals balance |
| VaultHistory.SeriesInTimeOrder | src/components/portfolio-dashboard.tsx:238-252 | for time-ordered events the chart points are in time order, and the baseline lies strictly before the first event |
| VaultHistory.NetPermutation | src/components/portfolio-dashboard.tsx:242-252 | the net balance of a set of events does not depend on the order they are folded in |
| VaultHistory.NetOfTagged | src/components/portfolio-dashboard.tsx:219-231 | the tagged deposits add up to the deposit total, and the tagged withdrawals to minus the withdrawal total |
| VaultHistory.SeriesLast | src/components/portfolio-dashboard.tsx:238-252 | a non-empty history has one point per event plus the baseline, and the last point is the net balance of all events |
| VaultHistory.TotalsMatchFinalBalance | src/components/portfolio-dashboard.tsx:170-171 | over the same logs, the final point of the series equals total deposits minus total withdrawals (the dashboard's chart is vault-wide, its totals per user) |
| VaultHistory.WithdrawalFirstGoesNegative | src/components/portfolio-dashboard.tsx:242-247 | the fold is not clamped: a withdrawal with no earlier deposit gives a negative balance point |
| VaultHistory.ThreeEventScenario | src/components/portfolio-dashboard.tsx:185-259 | deposits of 1 and 0.5 ETH and a withdrawal of 0.3 ETH give the series 0, 1, 1.5, 1.2 ETH, and totals 1.5 and 0.3 ETH |
| StableSort.SortBy | src/components/portfolio-dashboard.tsx:233 | the sort's result is a permutation of its input, of the same length |
| StableSort.InsertSorted | src/components/transaction-history.tsx:80 | inserting into a sorted list keeps it sorted |
| StableSort.SortBySorted | src/components/portfolio-dashboard.tsx:233 | the result is in non-decreasing key order |
| StableSort.SortByStable | src/components/portfolio-dashboard.tsx:233 | for every key, the elements with that key keep their input order (the sort is stable) |
| StableSort.SortByOrderedInput | src/components/portfolio-dashboard.tsx:233 | an already ordered list is returned unchanged |
| PortfolioDashboard.HistorySeries | src/components/portfolio-dashboard.tsx:214-252 | the series a history read produces; specified through VaultHistory.Combine and Series, and written by PortfolioDashboard.Dashboard.FetchVaultHistory |
| PortfolioDashboard.Dashboard.constructor | src/components/portfolio-dashboard.tsx:131-132 | the chart starts empty and the totals start null |
| PortfolioDashboard.Dashboard.FetchVaultHistory | src/components/portfolio-dashboard.tsx:185-259 | without a client, after a failed read, or with a log whose block is missing, the chart is kept; otherwise it becomes the series of the merged events; the totals never change |
| PortfolioDashboard.Dashboard.FetchUserTxStats | src/components/portfolio-dashboard.tsx:140-182 | without a client or a non-empty address nothing changes; a failed read resets the totals to null; otherwise they become the two sums; the chart never changes |
| PortfolioDashboard.WithdrawGate | src/components/portfolio-dashboard.tsx:443-467 | refused as insufficient exactly when a known vault balance is exceeded; a gas notice exactly when withdrawing all of a known balance with a zero wallet; otherwise the requested amount is submitted |
| PortfolioDashboard.SubmittedWithdrawalIsCovered | src/components/portfolio-dashboard.tsx:445-461 | a submitted withdrawal never exceeds a known vault balance, and a full withdrawal is only submitted when the wallet is not known to be empty |
| PortfolioDashboard.EstimatedFee | src/components/portfolio-dashboard.tsx:106-112 | a fee is shown exactly when both the gas estimate and the gas price are present and non-zero; it is their product and at least each of them |
| TransactionHistory.Ledger | src/components/transaction-history.tsx:66-80 | the sorted ledger; specified by TransactionHistory.LedgerOrder and LedgerRowsComeFromLogs |
| TransactionHistory.ToTransactions | src/components/transaction-history.tsx:66-78 | one row per log, in order, carrying its hash, amount and block, tagged with the stream's kind |
| TransactionHistory.LedgerOrder | src/components/transaction-history.tsx:80 | the ledger is a permutation of the deposit rows followed by the withdrawal rows, one per log, newest block first, and rows of the same block keep their concatenation order |
| TransactionHistory.LedgerRowsComeFromLogs | src/components/transaction-history.tsx:66-80 | every ledger row is the row of one of the user's deposit or withdrawal logs, with the matching kind |
| TransactionHistory.HistoryPanel.constructor | src/components/transaction-history.tsx:27-28 | the panel starts with no rows and loading |
| TransactionHistory.HistoryPanel.FetchHistory | src/components/transaction-history.tsx:31-88 | without a non-empty address or a client nothing changes; otherwise loading ends false, with the new ledger after a successful read and the previous rows after a failed one |
| Retry.RpcOptions | src/lib/retry.ts:86-99 | the options `withRpcRetry` passes on; specified by Retry.Defaults and RpcCallerKeysWin |
| Retry.Delay | src/lib/retry.ts:42 | the wait after a failed attempt; specified by Retry.TotalWait, RpcDefaultSchedule and WithRetry |
| Retry.Resolve | src/lib/retry.ts:24 | every option the caller gives overrides its default, every absent option takes its default (3 attempts, 1000 ms, backoff on), and the hook is the caller's |
| Retry.Defaults | src/lib/retry.ts:10-14 | with no options `withRetry` uses 3 attempts, 1000 ms and backoff; `withRpcRetry` uses 3 attempts, 500 ms, backoff and its warning hook |
| Retry.RpcCallerKeysWin | src/lib/retry.ts:86-99 | each key the caller passes to `withRpcRetry` reaches the loop unchanged, and each missing one takes the RPC default |
| Retry.ContainsOccurrence | src/lib/retry.ts:35-37 | `includes` holds exactly when the substring occurs at some position |
| Retry.TotalWait | src/lib/retry.ts:41-45 | with backoff the waits after n attempts add up to delayMs·(2ⁿ−1); without it, to delayMs·n |
| Retry.WithRetry | src/lib/retry.ts:20-50 | at most maxAttempts calls, none when maxAttempts ≤ 0 (then `undefined` is thrown); every call but the last threw a retryable error; it stops early only on success or a user rejection; the result is the last call's value or its error rethrown as is; one wait per retried attempt, doubling with backoff; one `onRetry(attempt, error)` per wait when a hook is given |
| Retry.RpcDefaultSchedule | src/lib/retry.ts:90-93 | with the RPC defaults a failing call is tried three times, waiting 500 ms and then 1000 ms |
| Debounce.Cancel | src/hooks/use-debounce.ts:22-24 | clearing a handle removes exactly the timers with that handle and keeps the rest |
| Debounce.DebouncedChangesOnlyOnFire | src/hooks/use-debounce.ts:18-32 | `setValue` calls alone never change the debounced value |
| Debounce.BurstSettles | src/hooks/use-debounce.ts:18-32 | a burst of `setValue` calls shows the last value at once, pending, with the debounced value untouched; once the timer fires the debounced value is the last value and nothing is pending |
| Debounce.DebouncedValue.constructor | src/hooks/use-debounce.ts:13-16 | value and debounced value start at the initial value, nothing pending, no timer |
| Debounce.DebouncedValue.SetValue | src/hooks/use-debounce.ts:18-32 | the previous timer is cancelled, one fresh timer captures the new value, and the visible state takes the replay step for a set |
| Debounce.DebouncedValue.TimerFires | src/hooks/use-debounce.ts:26-29 | the pending timer publishes its captured value and clears pending; the stored handle is left as it was |
| Debounce.RunHook | src/hooks/use-debounce.ts:12-40 | driving the hook through any sequence of sets and timer firings ends in the state the replay function describes |
| Debounce.CallsInvokeNothing | src/hooks/use-debounce.ts:51-61 | calls alone never invoke `func` |
| Debounce.BurstInvokesOnce | src/hooks/use-debounce.ts:45-62 | a burst of calls followed by the timer invokes `func` exactly once, with the last call's arguments |
| Debounce.FireEndsBurst | src/hooks/use-debounce.ts:52-55 | after the timer fires nothing waits, and later events behave as a fresh start |
| Debounce.Debouncer.constructor | src/hooks/use-debounce.ts:49 | the closure starts with no pending timeout |
| Debounce.Debouncer.Call | src/hooks/use-debounce.ts:51-61 | the pending timer is cancelled and one fresh timer holds these arguments |
| Debounce.Debouncer.Fire | src/hooks/use-debounce.ts:52-55 | the pending timer, if any, invokes `func` with its arguments and clears `timeout` |
| Debounce.RunDebounced | src/hooks/use-debounce.ts:45-62 | driving the closure through any sequence of calls and timer firings invokes `func` with exactly the arguments the specification function gives, never more often than there are events |
| AutoRefresh.StepKeepsOneInterval | src/hooks/use-auto-refresh.ts:28-45 | each refresh, tick, completion, effect run or unmount keeps at most one interval live, held by the ref exactly while a cleanup is registered |
| AutoRefresh.NeverTwoIntervals | src/hooks/use-auto-refresh.ts:28-45 | after any sequence of events from mount, at most one interval is live |
| AutoRefresh.GuardSkipsWhileRefreshing | src/hooks/use-auto-refresh.ts:16-17 | a call of `refresh` or an interval tick while a refresh is in flight changes nothing |
| AutoRefresh.RefreshLifecycle | src/hooks/use-auto-refresh.ts:16-26 | a refresh invokes `onRefresh` once and raises the flag; its completion lowers the flag, and only success stamps `lastRefreshed` |
| AutoRefresh.LastRefreshedIsASuccess | src/hooks/use-auto-refresh.ts:20-22 | the refresh time shown is always the time of some refresh that completed without throwing |
| AutoRefresh.DisableClears | src/hooks/use-auto-refresh.ts:29-34 | running the effect disabled leaves no interval live and the ref empty |
| AutoRefresh.Without | src/hooks/use-auto-refresh.ts:31 | clearing an interval removes exactly that handle |
| AutoRefresh.AutoRefresher.constructor | src/hooks/use-auto-refresh.ts:12-14 | the hook starts idle, never refreshed, with no interval |
| AutoRefresh.AutoRefresher.Refresh | src/hooks/use-auto-refresh.ts:16-26 | `onRefresh` is invoked exactly when no refresh is in flight, and the state takes the refresh step |
| AutoRefresh.AutoRefresher.Tick | src/hooks/use-auto-refresh.ts:37 | only a live interval fires, and it calls `refresh` under the same guard |
| AutoRefresh.AutoRefresher.Settle | src/hooks/use-auto-refresh.ts:20-25 | completion stamps the time on success and lowers the flag either way |
| AutoRefresh.AutoRefresher.ClearIntervalRef | src/hooks/use-auto-refresh.ts:30-33 | the interval in the ref is stopped and the ref emptied; nothing else changes |
| AutoRefresh.AutoRefresher.Effect | src/hooks/use-auto-refresh.ts:28-45 | the previous cleanup runs first; enabled leaves exactly one fresh interval in the ref, disabled leaves none |
| AutoRefresh.AutoRefresher.Unmount | src/hooks/use-auto-refresh.ts:39-44 | the last cleanup stops the live interval |
| AutoRefresh.RunAutoRefresh | src/hooks/use-auto-refresh.ts:11-52 | driving the hook through any events ends in the replayed state, with at most one live interval, held by the ref |
| Formatters.TruncateAddress | src/lib/formatters.ts:40-44 | `truncateAddress`; specified by Formatters.ShortAddressUnchanged, TruncatedShape, ZeroEndKeepsWholeTail and TruncateIdempotent |
| Formatters.IsValidEthereumAddress | src/lib/formatters.ts:78-80 | `isValidEthereumAddress`; specified by Formatters.ValidAddressShape |
| Formatters.ShortAddressUnchanged | src/lib/formatters.ts:41-42 | an empty address, or one no longer than the two ends together, is returned unchanged |
| Formatters.TruncatedShape | src/lib/formatters.ts:43 | a longer address becomes its first startChars characters, "..." and its last endChars characters, startChars+endChars+3 long |
| Formatters.ZeroEndKeepsWholeTail | src/lib/formatters.ts:43 | with endChars 0, `slice(-0)` is the whole string, so the result is longer than the address |
| Formatters.TruncateIdempotent | src/lib/formatters.ts:40-44 | truncating an already truncated address with the same ends (endChars ≥ 1) changes nothing |
| Formatters.ZeroEndNotIdempotent | src/lib/formatters.ts:43 | with endChars 0 a second truncation changes the result again |
| Formatters.ValidAddressShape | src/lib/formatters.ts:78-80 | an address is valid exactly when it is 42 characters, starts with "0x" (lower-case x) and the rest are hexadecimal digits of either case |
| Formatters.ContractAddressDisplay | src/lib/constants.ts:2 | the vault contract's address shows as "0x2d71...e1a5" with the defaults |
| Formatters.ValidAddressDisplayLength | src/lib/formatters.ts:40-44 | every valid address shows as 13 characters with the defaults |
| KeyboardShortcuts.Matches | src/hooks/use-keyboard-shortcuts.ts:36-41 | the four tests of the handler loop; specified by KeyboardShortcuts.HandleKeyDown and KeyMatchIgnoresCase |
| KeyboardShortcuts.KeyMatchIgnoresCase | src/hooks/use-keyboard-shortcuts.ts:36 | upper-casing a key does not change its lower-case form, so keys match regardless of case |
| KeyboardShortcuts.HandleKeyDown | src/hooks/use-keyboard-shortcuts.ts:24-47 | disabled or typing in a field: nothing runs; otherwise a shortcut runs exactly when one matches, it is the first match, and `preventDefault` is called exactly when a shortcut runs |
| KeyboardShortcuts.FormatKeyCombo | src/hooks/use-keyboard-shortcuts.ts:69-76 | the display is "Ctrl + ", "Shift + " and "Alt + ", each only when set and in that order, then the key in upper case |
| KeyboardShortcuts.FormattedEndsWithKey | src/hooks/use-keyboard-shortcuts.ts:74-75 | the display always ends with the upper-cased key, and a combination with no modifier is the key alone |
| NetworkValidation.IsCorrectNetwork | src/hooks/use-network-validation.ts:27-30 | `isCorrectNetwork`; specified by NetworkValidation.WrongIsNotCorrect |
| NetworkValidation.IsWrongNetwork | src/hooks/use-network-validation.ts:32-35 | `isWrongNetwork`; specified by NetworkValidation.WrongIsNotCorrect |
| NetworkValidation.NetworkName | src/hooks/use-network-validation.ts:37-47 | `networkName`; specified by NetworkValidation.UnnamedChainsDistinct and UnnamedChainShownById |
| NetworkValidation.WrongIsNotCorrect | src/hooks/use-network-validation.ts:27-35 | the wrong-network flag is the negation of the correct-network flag, and holds exactly for a connected wallet off chain 8453 |
| NetworkValidation.Decimal | src/hooks/use-network-validation.ts:45 | a chain id is written as at least one decimal digit |
| NetworkValidation.DecimalRoundTrip | src/hooks/use-network-validation.ts:45 | reading the decimal form back gives the chain id |
| NetworkValidation.UnnamedChainsDistinct | src/hooks/use-network-validation.ts:37-47 | two different chains outside the table never share a name |
| NetworkValidation.UnnamedChainShownById | src/hooks/use-network-validation.ts:45 | a chain outside the table is named "Chain " and its id, which no named chain shares |
| NetworkValidation.GuardedCall | src/hooks/use-network-validation.ts:79-87 | the action runs, with its result returned, exactly on the correct network; otherwise `onWrongNetwork` is called when given, a switch to Base is requested and `undefined` is returned |
| NetworkValidation.SwitchFixesNetwork | src/hooks/use-network-validation.ts:49-56 | the switch request asks for Base, and once granted the next guarded call runs the action |
| CountUp.FormatNumber | src/components/count-up.tsx:57-62 | `formatNumber`; specified by CountUp.FormatFixedString, RegexGroupsByThrees and ShortOrSigned |
| CountUp.SeparatorPositions | src/components/count-up.tsx:60 | in a signed digit string the regex matches exactly at the positions after the first digit where a multiple of three digits remains |
| CountUp.ShortRunUnchanged | src/components/count-up.tsx:60 | up to three digits get no separator |
| CountUp.RegexGroupsByThrees | src/components/count-up.tsx:60 | the replacement equals the sign followed by the digits grouped by threes from the right |
| CountUp.FormatIntegerGroups | src/components/count-up.tsx:60 | formatting the integer part yields the sign and the grouped digits |
| CountUp.GroupDigitsLength | src/components/count-up.tsx:60 | grouping n digits inserts ⌊(n−1)/3⌋ separators |
| CountUp.ShortOrSigned | src/components/count-up.tsx:60 | the sign is kept in front, the first digit follows it, and short numbers are unchanged |
| CountUp.UngroupDigits | src/components/count-up.tsx:60 | removing a one-character non-digit separator restores the digits |
| CountUp.SplitOneDot | src/components/count-up.tsx:59 | `split('.')` on one dot between dot-free parts yields those parts |
| CountUp.FormatFixedString | src/components/count-up.tsx:57-62 | for a fixed-point string the result is the sign, the grouped integer digits, and the fractional digits copied as they are when there are any |

## Left out

- Chain reads (`createEventFilter`, `getFilterLogs`, `getBlock`, `readContract`) are not modelled. Their outcome is an input: what they returned, or that one threw.
- The wagmi, viem and React libraries are not modelled: hooks, rendering, effects re-run by dependency changes, stale closures, toasts and JSX. React setters take effect at once.
- Floating point is not modelled: `formatEther`, `parseFloat`, `toFixed`, the mock USD price, the `parseFloat` checks on typed amounts, and `Number()` conversions. Chart balances stay in wei. Block numbers in the ledger sort and timestamps are exact integers.
- VaultHistory.Series: the 'MMM d' date label of each point is left out; a point carries its instant.
- The animation of `CountUp` and `AnimatedNumber` (easing, `requestAnimationFrame`) is not modelled. `formatNumber` takes the `toFixed` string as its input. The rendered prefix and suffix are not modelled.
- The random daily change, the `handleRefresh` spinner timeout, clipboard sharing and the deposit form are browser UI and are not modelled.
- The portfolio advisory feature (`src/ai/`, `lib/actions.ts`, `ai-optimizer.tsx`) is not part of this model.
- `sleep`, `fetchWithTimeout` and every timer duration (`delay`, `wait`, `interval`) are not modelled. A timer firing is an explicit event; the duration only decides when that event comes.
- Retry.WithRetry: a fractional or NaN `maxAttempts` is not modelled (integers only). A caller passing an explicit `undefined` key, which overrides the default in a spread, is not modelled.
- Retry.WithRetry: the `onRetry` hook is an infallible notice. In the code it runs inside the `catch`, so a hook that throws makes `withRetry` reject with the hook's error and skips the sleep; that path is not modelled.
- Formatters.TruncateAddress: lengths and `slice` indices count characters (Unicode scalar values) and take integer indices. JavaScript counts UTF-16 code units and truncates fractional indices; these agree on the ASCII addresses the dashboard shows, and the difference is not modelled.
- CountUp.Replaced: the separator is inserted literally. `String.prototype.replace` would expand `$&`, `$$`, `` $` `` and `$'` inside the separator string; those patterns are not modelled.
- The outcome of the wallet's `switchChain` request is not modelled. The guarded wrapper swallows it.
- KeyboardShortcuts.ToLower and KeyboardShortcuts.ToUpper map ASCII letters only; the Unicode case mapping of other keys is not modelled.
- AutoRefresh.RunAutoRefresh: a completion without a refresh in flight cannot occur and is skipped.
- No throttle exists in the code, so none is modelled.
- No fetch session or staleness guard exists in the code, so none is modelled.
