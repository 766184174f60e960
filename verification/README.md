# Polymesh: a verified model of its bridge, calendar and primitives

This project models the parts of Polymesh that carry the most logic and proves what they promise.

- **The Ethereum-to-Polymesh bridge pallet.** `BridgeSpec` is the pallet as a state machine. `BridgePallet`
  is the same pallet as a class over its storage maps, each method proved to be a transition of that machine.
  The other `Bridge…` modules prove theorems over every run: any dispatchable from any origin, queued calls
  fired at or after their slot in any status, and the chain advancing. They are exactly-once minting
  (`BridgeSafety`), delivery (`BridgeDelivery`), amount, timelock and backoff (`BridgeAcceptance`), the bridge
  limit (`BridgeLimits`) and what it leaves (`BridgeAllowance`), the state diagram (`BridgeTransitions`), and
  what backs a mint whatever administrators do (`BridgeGrants`). `BridgeOutcomes` and `BridgeSettings` give the
  whole outcome of every call, and `BridgeWitnesses` holds concrete runs.
- **Checkpoint schedules.** `Gregorian` is the calendar as a reference, `Calendar` the code's arithmetic, and
  `CheckpointGrid` proves that the one lands exactly on the grid of the other. `CheckpointSkips` says exactly
  when a point of the grid is passed over, and `CheckpointUnits` measures the units.
- **Identifier check digits.** `AssetIdentifier` holds the LEI and ISIN validators with their loops, against
  ISO/IEC 7064 MOD 97-10 (as ISO 17442 uses it) and the Luhn test of ISO 6166. `CheckDigits` proves which
  errors they catch, and `Cusip` does both for CUSIP and CINS numbers.
- **Permissions.** `Subset` is the lattice of finite and cofinite descriptions, against the sets they describe.
  `SecondaryKey` uses it for the permissions of a key.
- **Tickers, settlement legs, vesting and ERC-20.** `Ticker`, `Settlement`, `Vesting` and `Erc20`.

`Wrappers` and `Division` hold shared helpers, and `Widths` ties the bounds to the integer types. `dafny verify dfyconfig.toml` checks everything.

## What the bridge model takes as given

- What the pallet asks of other code is an `Env` that may differ at every step: the CDD lookup, whether the
  caller's key has an identity, and whether the scheduler takes a call. The caller is root, a signed account
  or neither.
- The scheduler takes a call only for a block after the current one. A queued call fires at any block from its
  slot on, once, and is then gone from the queue.
- Balances change only through the bridge. Deposits are those of the balances pallet: a deposit that would
  overflow the recipient's balance is dropped, and the total issuance saturates.
- Block arithmetic saturates at the largest `u32`. The `u8` attempt counter wraps at 256, as it does in a
  build without overflow checks; `PendingBacksOff` proves that it cannot wrap before block 233 * 2^24 - 1.
- `log` is a history variable that records every successful issue. No branch reads it.

## Where the code differs from what is written about it

- The comment on `next_checkpoint` says that a fixed period is added to the current time. The code returns the
  next point of the grid that begins at the schedule's start; the model follows the code.
- A month or year schedule returns a checkpoint in a later month or year than now, even if one in the current
  month or year is still to come. `PassesOverACheckpoint` gives the input and `EarliestUnlessPassedOver` the
  exact condition, on the start, the period and the current time.
- The comment on `start` says seconds; the code divides it by 1000, so the model takes milliseconds.
- The bridge's diagram has no edge from timelocked to handled nor from frozen to handled. A queued call handles
  a timelocked transaction directly, and unfreezing passes through absent and may handle at once, so
  `BridgeTransitions.Edge` has both. `TimelockedToHandled` and `FrozenToHandled` are runs that take them;
  `DueCallHandles` and `UnfreezeOneHandles` say exactly when.
- Freezing or removing a transaction does not cancel its queued call, which may later handle or put off a
  transaction submitted anew under the same key. `StaleCallOverridesRecord` is a run in which a key has two
  calls and the older one mints an amount that is not on record, before the record's timelock is over;
  `DueCallMintsItsAmount` says exactly when the two agree. The theorems on amount, timelock and backoff are
  therefore about keys that no administrator acts on. Calls by which others try to are refused and do not
  count. The theorems on safety, supply, delivery, the limit and the backing of mints are about all runs.
- Freezing a key that was never submitted and unfreezing it mints nothing and uses the key up for good
  (`FreezingUnknownUsesItUp`).
- Nothing keeps the genesis configuration from listing a key twice. `MintedAtMostOnce` proves that exactly the
  configurations without repetition are safe.
- An ISIN with two exchanged digits is accepted if they are 0 and 9, and an LEI with two exchanged characters
  if they read the same either way (B1, M2, X3). The lemmas say exactly when.
- `add_pallet_permissions` on a set of exceptions grants what no other exception covers, not the added entry;
  `AddedIsNotGranted` is an input.

## Model

| member | source | states |
|---|---|---|
| `BridgeSafety.MintedAtMostOnce` | pallets/bridge/src/lib.rs:612-709 | after genesis and over every run of every call, stale queued calls and repeated batch entries included, no (recipient, nonce) is minted twice and the minted keys are exactly the handled ones, if and only if genesis repeats no key |
| `BridgeSafety.StepKeeps` | pallets/bridge/src/lib.rs:978-1048 | no step shortens the log, changes a handled record, moves money in a frozen module, or breaks exactly-once minting |
| `BridgeSafety.StepIsLawful` | pallets/bridge/src/lib.rs:784-887 | a step other than unfreezing a batch either mints nothing and handles nothing, or mints exactly one unhandled key in an unfrozen module and touches no other record |
| `BridgeSafety.HandleNowIsLawful` | pallets/bridge/src/lib.rs:643-709 | an attempt mints its own key once or is quiet, for manual, trusted and forced attempts alike |
| `BridgeSafety.UnfreezeAllKeeps` | pallets/bridge/src/lib.rs:1001-1029 | the same guarantees for a batch unfrozen one by one, with repeated entries |
| `BridgeSafety.HandledIsFinal` | pallets/bridge/src/lib.rs:150-164 | a handled record is never changed again, along any run from any state |
| `BridgeSafety.GenesisMintsAll` | pallets/bridge/src/genesis.rs:54-83 | genesis mints exactly the configured transactions in their order, marks exactly their keys as handled, and conserves supply |
| `BridgeSafety.GenesisIsSafe` | pallets/bridge/src/genesis.rs:54-83 | the state after genesis is safe if and only if no key is configured twice |
| `BridgeSafety.CreditConserves` | pallets/balances/src/lib.rs:947-971 | a deposit keeps issuance and every balance equal to the opening ones plus the log, as long as the sum fits a `u128` |
| `BridgeSafety.SupplyIsLogged` | pallets/bridge/src/lib.rs:612-640 | along every run, issuance is the opening issuance plus the logged amounts if and only if that fits a `u128`, and then every account holds its opening balance plus its own mints |
| `BridgeSafety.StepAdvancesBlock` | pallets/bridge/src/lib.rs:784-887 | no step moves the chain back |
| `BridgeDelivery.NoTransactionIsLost` | pallets/bridge/src/lib.rs:686-750 | with a scheduler that takes every future slot and blocks left, every timelocked or pending record of every reachable state has a queued call at exactly its execution block |
| `BridgeDelivery.StepDelivers` | pallets/bridge/src/lib.rs:712-753 | every single step keeps that |
| `BridgeDelivery.FireDelivers` | pallets/bridge/src/lib.rs:880-887 | firing uses up a call, and the record it was for gets another slot or stops waiting, whatever its status |
| `BridgeDelivery.HandleLaterDelivers` | pallets/bridge/src/lib.rs:712-753 | putting off fails only for frozen and handled records and otherwise gives a slot, touching no other key |
| `BridgeDelivery.StepHonours` | pallets/bridge/src/lib.rs:612-887 | every step keeps the log, finality, the freeze, exactly-once minting, time, supply and delivery, which every dispatchable of the class promises |
| `BridgeDelivery.GenesisIsDelivered` | pallets/bridge/src/genesis.rs:54-83 | genesis leaves nothing waiting and an empty queue |
| `BridgeDelivery.IssuesIffMayBridge` | pallets/bridge/src/lib.rs:612-640 | issuing succeeds if and only if the recipient has a CDD and is exempted or within the limit of the current interval |
| `BridgeDelivery.DueCallHandles` | pallets/bridge/src/lib.rs:643-709 | a due call handles its waiting transaction if and only if the module is not frozen and the identity may bridge the amount |
| `BridgeAcceptance.MintedAsAccepted` | pallets/bridge/src/lib.rs:797-825 | for a key no administrator acts on, whatever refused calls name it, every mint has the amount accepted from the controller or admin, whatever manual retries carried, and with a timelock T > 0 comes at least T + 1 blocks after acceptance |
| `BridgeAcceptance.RunTracks` | pallets/bridge/src/lib.rs:712-753 | the invariant behind it: one queued call at most, of the accepted amount, after as many backoffs as attempts |
| `BridgeAcceptance.OneCallPerKey` | pallets/bridge/src/lib.rs:855-878 | such a key never has two calls in the queue |
| `BridgeAcceptance.PendingBacksOff` | pallets/bridge/src/lib.rs:717-747 | before block 233 * 2^24 - 1, pending with count n means n attempts in 1..255 and at least 2^n - 1 blocks since acceptance up to n = 24, then (n - 23) * 2^24 - 1 |
| `BridgeAcceptance.BackoffDoubles` | pallets/bridge/src/lib.rs:717-747 | n backoffs take 2^n - 1 blocks up to the cap of 24 |
| `BridgeAcceptance.BackoffIsLinear` | pallets/bridge/src/lib.rs:717-747 | beyond the cap every attempt adds 2^24 blocks |
| `BridgeAcceptance.AttemptsBefore` | pallets/bridge/src/lib.rs:717-747 | fewer than 256 backoffs fit before block 233 * 2^24 - 1, so the counter has not wrapped |
| `BridgeAcceptance.GenesisLeavesOthersAbsent` | pallets/bridge/src/genesis.rs:54-83 | every key not configured is absent and has no queued call |
| `BridgeGrants.EveryMintIsBacked` | pallets/bridge/src/lib.rs:643-839 | over every run from genesis, with administrators doing as they please: a mint has an amount that the controller or admin submitted for that very key or root dispatched for it, or it is 0 and an admin froze the key while it was absent |
| `BridgeGrants.StepBacks` | pallets/bridge/src/lib.rs:784-1048 | the invariant behind it, for every event: the record, the queued calls and the mints of a key all have backed amounts |
| `BridgeWitnesses.StaleCallOverridesRecord` | pallets/bridge/src/lib.rs:978-1029 | a run in which, after freezing, unfreezing and resubmitting, a key has two queued calls and the stale one mints 10 at block 6 while the record says 8 and block 10 |
| `BridgeWitnesses.DueCallMintsItsAmount` | pallets/bridge/src/lib.rs:667-680 | a due call of a record that is neither handled nor frozen mints the call's own amount exactly if the module is not frozen and the identity may bridge it; that is the amount on record if and only if the two agree |
| `BridgeWitnesses.FreezingUnknownUsesItUp` | pallets/bridge/src/lib.rs:978-1029 | freezing and unfreezing a key that was never submitted mints 0, and along every run after it the record stays handled and unchanged |
| `BridgeWitnesses.TimelockedToHandled` | pallets/bridge/src/lib.rs:55-77 | a run whose first queued call takes a record from timelocked to handled |
| `BridgeWitnesses.FrozenToHandled` | pallets/bridge/src/lib.rs:55-77 | a run whose unfreezing takes a record from frozen to handled |
| `BridgeLimits.LimitBoundsMinting` | pallets/bridge/src/lib.rs:617-635 | while the limit is the same, over every run and across all recipients of one identity, at most the limit is minted without exemption in each interval, and at most twice the limit in any window as long |
| `BridgeLimits.RunStaysBounded` | pallets/bridge/src/lib.rs:617-635 | the invariant behind it: no interval exceeds the limit and the stored total covers the last interval used |
| `BridgeLimits.IssueIsWithinLimit` | pallets/bridge/src/lib.rs:612-640 | a limited mint is included in the stored total of its interval and of no other identity |
| `BridgeLimits.WindowMeetsTwoIntervals` | pallets/bridge/src/lib.rs:617-635 | a window as long as an interval meets at most two of them |
| `BridgeAllowance.IssuesIffRoom` | pallets/bridge/src/lib.rs:612-640 | from genesis on, while the limit is the same: an amount can be issued if and only if the recipient has an identity that is exempted or whose logged mints of the current interval leave room for it, so the stored totals never go stale |
| `BridgeAllowance.ExactIsLogged` | pallets/bridge/src/lib.rs:617-635 | the stored total of an identity is what the log says it bridged in the current interval |
| `BridgeTransitions.StepFollowsDiagram` | pallets/bridge/src/lib.rs:55-77 | every step moves every record along an edge; into frozen only by the `freeze_txs` of an admin with an identity on it, out of frozen only by such an admin's `unfreeze_txs` or `remove_txs` on it |
| `BridgeTransitions.OutsiderOnlyRetries` | pallets/bridge/src/lib.rs:784-826 | an account that is neither admin nor controller can only complete pending transactions and, as a freeze admin, freeze the module |
| `BridgeTransitions.FrozenIsHeld` | pallets/bridge/src/lib.rs:978-1048 | a frozen transaction stays frozen and unminted over every run in which no admin unfreezes or removes it, whatever queued and refused calls do |
| `BridgeTransitions.UnfreezeMintsRecordedAmount` | pallets/bridge/src/lib.rs:1001-1029 | unfreezing mints only listed frozen keys, at the amount on record and not the amount in the list |
| `BridgeTransitions.FreezeAllMoves` | pallets/bridge/src/lib.rs:978-999 | freezes exactly the listed unhandled keys and keeps their amounts |
| `BridgeTransitions.UnfreezeAllMoves` | pallets/bridge/src/lib.rs:1001-1029 | a listed frozen key ends absent or handled, any other record is unchanged |
| `BridgeTransitions.UnfreezeOneHandles` | pallets/bridge/src/lib.rs:1007-1025 | unfreezing handles a frozen transaction if and only if the module is not frozen and the identity may bridge the amount on record |
| `BridgeTransitions.UnfreezeAllHandles` | pallets/bridge/src/lib.rs:1007-1025 | in a batch that is decided where the key is first listed, by what the entries before it left of the limit |
| `BridgeTransitions.RemoveMoves` | pallets/bridge/src/lib.rs:1031-1048 | removes exactly the listed keys, all of them frozen before |
| `BridgePallet.Bridge.constructor` | pallets/bridge/src/lib.rs:254-308 | the storage before genesis: configuration, no freeze admins or exemptions, and nothing recorded, queued or minted |
| `BridgePallet.Bridge.DepositCreating` | pallets/balances/src/lib.rs:947-971 | on overflow of the balance nothing changes, otherwise balance and saturating issuance grow |
| `BridgePallet.Bridge.CountAgainstLimit` | pallets/bridge/src/lib.rs:624-635 | refines counting towards the interval total, with overflow and limit refused |
| `BridgePallet.Bridge.Issue` | pallets/bridge/src/lib.rs:612-640 | refines the specification's issue: CDD, exemption, interval total, limit, deposit, and each error |
| `BridgePallet.Bridge.ScheduleCall` | pallets/bridge/src/lib.rs:855-878 | queues exactly one call, or is refused and queues none |
| `BridgePallet.Bridge.HandleBridgeTxLater` | pallets/bridge/src/lib.rs:712-753 | refines putting off: next status, backoff slot, recorded amount, queued call |
| `BridgePallet.Bridge.HandleBridgeTxNow` | pallets/bridge/src/lib.rs:643-709 | refines an attempt: status checks, freeze, issue, fallback to putting off |
| `BridgeTransitions.AdminCallsAreReserved` | pallets/bridge/src/lib.rs:569-592 | every call reserved to the admin goes through for an admin with an identity and nobody else; otherwise it changes nothing, and the error tells an unsigned origin, another account and a missing identity apart |
| `BridgeTransitions.FreezingIsReserved` | pallets/bridge/src/lib.rs:594-601 | the module is frozen by the admin or a freeze admin and unfrozen by the admin, each with an identity, if and only if that changes anything; every other attempt leaves the state as it was |
| `BridgeOutcomes.SubmissionOutcome` | pallets/bridge/src/lib.rs:784-826 | what a submission does by status and caller: completes, puts off to the exact slot, retries at the amount on record, gives a frozen record the submitted amount, or is refused with its error; in each case everything that changes and that nothing else does |
| `BridgeOutcomes.AmendedAmountIsMinted` | pallets/bridge/src/lib.rs:814-822 | over runs: once a transaction is frozen, what the controller or admin last submitted for it before an unfreezing that handles it is what is minted |
| `BridgeOutcomes.FrozenRecordKept` | pallets/bridge/src/lib.rs:814-822 | nothing but such a submission or a release changes a frozen record |
| `BridgeOutcomes.ForceOutcome` | pallets/bridge/src/lib.rs:829-839 | the admin's forced attempt mints the amount at once whatever the limit, totals, exemptions and timelock, counts towards no total, and is put off only by a frozen module; each refusal with its error |
| `BridgeOutcomes.ScheduledOutcome` | pallets/bridge/src/lib.rs:880-887 | only root dispatches a queued call, which mints its amount if module and limit let it and is put off otherwise |
| `BridgeOutcomes.LaterOutcome` | pallets/bridge/src/lib.rs:712-753 | putting off sets the slot to the timelock and then 1, 2, 4, … up to 2^24 blocks from now, records it and queues exactly one call |
| `BridgeOutcomes.IssueOutcome` | pallets/bridge/src/lib.rs:612-640 | issuing credits, logs and counts exactly the amount, or changes nothing and gives the error of the first check that fails |
| `BridgeSettings.ControllerChanges` | pallets/bridge/src/lib.rs:889-897 | exactly the new account is the controller, and nothing else changes |
| `BridgeSettings.AdminChanges` | pallets/bridge/src/lib.rs:899-904 | exactly the new account is the admin, and the old one is refused every reserved call |
| `BridgeSettings.TimelockChanges` | pallets/bridge/src/lib.rs:906-911 | the next new transaction is due that many blocks and one later |
| `BridgeSettings.LimitChanges` | pallets/bridge/src/lib.rs:952-964 | a zero duration is refused; otherwise an identity with nothing in the current interval may bridge exactly up to the new limit |
| `BridgeSettings.ExemptionsChange` | pallets/bridge/src/lib.rs:966-976 | the last entry for an identity decides, and identities not listed stay as they were |
| `BridgeSettings.FreezeAdminIsAdded` | pallets/bridge/src/lib.rs:913-921 | the account may freeze the module, and nothing changes for any other |
| `BridgeSettings.FreezeAdminIsRemoved` | pallets/bridge/src/lib.rs:923-931 | the account may no longer, unless it is the admin, and nothing changes for any other |
| `BridgeSettings.BatchOutcome` | pallets/bridge/src/lib.rs:978-1048 | the admin's batches succeed, except that removing one that is not frozen removes nothing |
| `BridgeSettings.GenesisRecords` | pallets/bridge/src/genesis.rs:54-83 | each configured transaction is on record with its amount and hash, handled in block zero |
| `BridgePallet.Bridge.HandleBridgeTx` | pallets/bridge/src/lib.rs:784-826 | refines that dispatch; keeps exactly-once minting, finality, supply, the freeze and delivery, as every dispatchable below does |
| `BridgePallet.Bridge.ForceHandleBridgeTx` | pallets/bridge/src/lib.rs:829-839 | refines the admin's forced attempt, exempt from the limit |
| `BridgePallet.Bridge.HandleScheduledBridgeTx` | pallets/bridge/src/lib.rs:880-887 | refines the root-only attempt of a queued call |
| `BridgePallet.Bridge.FreezeTxs` | pallets/bridge/src/lib.rs:978-999 | the loop freezes the listed transactions as the specification does |
| `BridgePallet.Bridge.UnfreezeTxs` | pallets/bridge/src/lib.rs:1001-1029 | the loop unfreezes one by one, each seeing what the ones before did |
| `BridgePallet.Bridge.RemoveTxs` | pallets/bridge/src/lib.rs:1031-1048 | removes all listed transactions if all are frozen, otherwise none |
| `BridgePallet.Bridge.SetFreeze` | pallets/bridge/src/lib.rs:933-950 | toggles the module freeze, refused if it is already so |
| `BridgePallet.Bridge.ChangeController` | pallets/bridge/src/lib.rs:889-897 | admin only; changes the controller and nothing else |
| `BridgePallet.Bridge.ChangeAdmin` | pallets/bridge/src/lib.rs:899-904 | admin only; changes the admin and nothing else |
| `BridgePallet.Bridge.ChangeTimelock` | pallets/bridge/src/lib.rs:906-911 | admin only; changes the timelock and nothing else |
| `BridgePallet.Bridge.AddFreezeAdmin` | pallets/bridge/src/lib.rs:913-921 | admin only; adds one freeze admin |
| `BridgePallet.Bridge.RemoveFreezeAdmin` | pallets/bridge/src/lib.rs:923-931 | admin only; removes one freeze admin |
| `BridgePallet.Bridge.Fire` | pallets/bridge/src/lib.rs:855-887 | the scheduler uses up a queued call that is due and dispatches it as root; keeps all that a step must |
| `BridgePallet.Bridge.Advance` | pallets/bridge/src/lib.rs:855-878 | the chain only moves forward; keeps all that a step must |
| `BridgePallet.Bridge.ChangeBridgeLimit` | pallets/bridge/src/lib.rs:952-964 | admin only; refuses a zero duration, otherwise changes limit and duration |
| `BridgePallet.Bridge.ChangeBridgeExempted` | pallets/bridge/src/lib.rs:966-976 | admin only; the loop applies the listed exemptions, the last one for an identity counting |
| `BridgePallet.Bridge.CompleteGenesisTxs` | pallets/bridge/src/genesis.rs:54-83 | the loop refines genesis; fails exactly where the source panics; leaves a safe object if and only if no key is listed twice, and conserves supply |
| `Gregorian.DateRoundTrip` | primitives/src/calendar.rs:202-264 | counting days from 1970 and reading a date back gives the same date |
| `Gregorian.DayRoundTrip` | primitives/src/calendar.rs:202-264 | and the other way round, so days and dates are in bijection |
| `Gregorian.LeapYearsByRule` | primitives/src/calendar.rs:283-285 | the leap years before a year number y/4 - y/100 + y/400 by the rule the code applies |
| `Gregorian.NewYearsDay` | primitives/src/calendar.rs:283-285 | the days before a year are 365 for each year and one for each leap year |
| `CheckpointGrid.NextIsFirstLaterGridPoint` | primitives/src/calendar.rs:182-267 | for every unit, once started, the next checkpoint is the grid point with the least index that is later than now (for months and years: in a later month or year), strictly after now; the code returns it exactly when it is in range, so no date bail-out is reached within range |
| `CheckpointGrid.FixedCodeIsGrid` | primitives/src/calendar.rs:187-201 | for fixed units the code's divisions find the least start + k * period after now, or overflow |
| `CheckpointGrid.MonthCodeIsGrid` | primitives/src/calendar.rs:213-244 | the month arithmetic gives a valid date on the start's day or the last day of a shorter month |
| `CheckpointGrid.YearCodeIsGrid` | primitives/src/calendar.rs:245-262 | so does the year arithmetic, the 29th of February included |
| `CheckpointGrid.GridPointDate` | primitives/src/calendar.rs:202-264 | a grid point has the start's time of day and the date that many months on |
| `CheckpointGrid.GridGrows` | primitives/src/calendar.rs:182-267 | grid points increase strictly with their index |
| `CheckpointSkips.EarliestUnlessPassedOver` | primitives/src/calendar.rs:182-267 | what the code returns is a grid point after now, and the earliest one if and only if none is passed over: whole periods from the start's month or year reach now's, and the start's day, clamped to the month, and time are still ahead; then exactly one is |
| `CheckpointSkips.PreviousIsAhead` | primitives/src/calendar.rs:202-264 | that condition holds if and only if the checkpoint before the answer is still to come |
| `CheckpointSkips.PassesOverACheckpoint` | primitives/src/calendar.rs:213-244 | monthly from the 15th of January, asked on the 10th of February: the code answers the 15th of March, and the 15th of February is still to come |
| `CheckpointGrid.NextOfGridPoint` | primitives/src/calendar.rs:182-267 | asked at a checkpoint, the schedule gives the one after it |
| `CheckpointGrid.IterationStaysOnGrid` | primitives/src/calendar.rs:151-179 | iterating from the start n times lands exactly on the n-th grid point, so a clamped day never drifts |
| `CheckpointGrid.IterationReaches` | primitives/src/calendar.rs:151-179 | the iteration succeeds as far as the grid is in range |
| `CheckpointGrid.NextCheckpointMonotone` | primitives/src/calendar.rs:177-179 | the next checkpoint is strictly in the future and moves forward with time, across the future-start, fixed and variable branches, in milliseconds |
| `CheckpointGrid.CheckpointsPerYear` | primitives/src/calendar.rs:126-136 | any 365 days hold at most yearly frequency + 1 checkpoints |
| `CheckpointGrid.YearlyFrequencyOfMonths` | primitives/src/calendar.rs:126-136 | for months and years the nested divisions of seconds give twelve divided by the months of the period |
| `CheckpointUnits.UnitsConvert` | primitives/src/calendar.rs:37-54 | a minute schedule answers as one of 60 times as many seconds, an hour one as 60 minutes, a day one as 24 hours, a week one as 7 days |
| `CheckpointUnits.SecondGrid` | primitives/src/calendar.rs:187-201 | a second schedule's points are the amount apart |
| `CheckpointUnits.DayGrid` | primitives/src/calendar.rs:187-201 | a day schedule keeps the time of day and moves on by that many days of the calendar |
| `CheckpointUnits.WeekGrid` | primitives/src/calendar.rs:187-201 | a week schedule does so by seven times as many |
| `CheckpointUnits.FrequencyAndComplexity` | primitives/src/calendar.rs:93-136 | the yearly frequency is the number of units in 365 days divided by the amount; the complexity is that or two, and one for a period that does not recur |
| `CheckpointUnits.FrequencyIsReached` | primitives/src/calendar.rs:134-136 | for fixed units the frequency is also a lower bound: 365 days hold it or one more |
| `CheckpointUnits.OneOffSchedule` | primitives/src/calendar.rs:182-201 | without a period the start is next until it has come, and then nothing is |
| `CheckpointUnits.MonthOverflowIff` | primitives/src/calendar.rs:213-244 | exactly where the month arithmetic leaves 32 bits |
| `CheckpointUnits.YearOverflowIff` | primitives/src/calendar.rs:245-262 | exactly where the year arithmetic leaves 31 bits |
| `Widths.BoundsAreTypeBounds` | primitives/src/lib.rs:32-84 | block numbers have 32 bits, timestamps 64 and balances 128 |
| `AssetIdentifier.ByteValueRoundTrip` | primitives/src/asset_identifier.rs:76-86 | values count 0-9, A-Z in either case, `*`, `@` and `#` in that order: each character has the one value whose symbol it is, and no other character has any |
| `AssetIdentifier.LeiChecksum` | primitives/src/asset_identifier.rs:189-199 | the backward loop computes the checksum of the number that the expanded string spells, without `u128` overflow |
| `AssetIdentifier.ValidateLei` | primitives/src/asset_identifier.rs:168-187 | accepts exactly the well-formed strings whose whole expanded number is 1 modulo 97, with a check pair from 02 to 98 |
| `AssetIdentifier.CheckPairIsComplement` | primitives/src/asset_identifier.rs:168-199 | 98 minus the remainder is the one pair from 02 to 98 that completes a number to 1 modulo 97 |
| `AssetIdentifier.LuhnTest` | primitives/src/asset_identifier.rs:148-164 | the right-to-left loop with its shortcut decides the Luhn sum modulo ten |
| `AssetIdentifier.ValidateIsin` | primitives/src/asset_identifier.rs:117-165 | accepts exactly the well-formed strings whose expanded digits pass the Luhn test |
| `CheckDigits.LeiCatchesSubstitution` | primitives/src/asset_identifier.rs:168-199 | replacing any one character of a valid LEI by one of its class with a different value makes it invalid |
| `CheckDigits.LeiCatchesTransposition` | primitives/src/asset_identifier.rs:168-199 | exchanging any two neighbours keeps it valid if and only if, before the check pair, they read the same either way, and from there on, they are equal |
| `CheckDigits.IsinCatchesSubstitution` | primitives/src/asset_identifier.rs:117-165 | replacing one digit of a valid ISIN by a different digit makes it invalid |
| `CheckDigits.IsinCatchesTransposition` | primitives/src/asset_identifier.rs:117-165 | exchanging two adjacent digits keeps it valid if and only if they are equal or 0 and 9 |
| `CheckDigits.IsinCheckDigitIsUnique` | primitives/src/asset_identifier.rs:117-165 | a well-formed prefix of eleven has exactly one check digit |
| `Cusip.CusipCheckDigit` | primitives/src/asset_identifier.rs:90-101 | the loop returns the digit that completes the weighted digit sums to a multiple of ten, and fails exactly on a character without a value |
| `Cusip.ValidateCusip` | primitives/src/asset_identifier.rs:104-114 | accepts exactly the strings whose last character is that digit |
| `Cusip.CusipCatchesSubstitution` | primitives/src/asset_identifier.rs:90-114 | a replaced character goes unnoticed if and only if the two weigh the same modulo ten |
| `Cusip.CusipCatchesDigit` | primitives/src/asset_identifier.rs:90-114 | replacing one digit by a different digit, the check digit included, is always caught |
| `Cusip.WeightIsDigitSum` | primitives/src/asset_identifier.rs:90-101 | the weight is the sum of the digits that spell the value, doubled in every second place |
| `Cusip.KnownCusip` | primitives/src/asset_identifier.rs:230-252 | 68389X10 has the check digit 5 and no other |
| `Subset.ComparesAsSets` | primitives/src/subset.rs:69-124 | over an open universe the comparison is that of the sets described, in all four outcomes |
| `Subset.ComparesAsSetsIffOpen` | primitives/src/subset.rs:49-61 | openness of the universe is exactly what that needs |
| `Subset.NumbersAreOpen` | primitives/src/subset.rs:49-61 | there are such universes: no finite set exhausts the numbers |
| `Subset.GeFinite` | primitives/src/subset.rs:153-158 | a description is at least a finite set if and only if it describes each element, in any universe |
| `Subset.GeIsInclusion` | primitives/src/subset.rs:153-158 | over an open universe `ge` is inclusion |
| `Subset.UnionDenotes` | primitives/src/subset.rs:189-200 | the union of descriptions describes the union |
| `Subset.UnionIsCommutative` | primitives/src/subset.rs:189-200 | union is commutative |
| `Subset.UnionIsAssociative` | primitives/src/subset.rs:189-200 | union is associative |
| `Subset.UnionIsLeastUpperBound` | primitives/src/subset.rs:189-200 | union is the least upper bound for `ge` |
| `SecondaryKey.Permissions.constructor` | primitives/src/secondary_key.rs:138-145 | holds the given permission sets |
| `SecondaryKey.Permissions.AddPalletPermissions` | primitives/src/secondary_key.rs:170-174 | replaces the extrinsic permissions by their union with the entry |
| `SecondaryKey.Permissions.PermissionsAreMembership` | primitives/src/secondary_key.rs:406-424 | asset and portfolio access is granted if and only if everything asked for is in the set described |
| `SecondaryKey.SufficientIsCovered` | primitives/src/secondary_key.rs:106-124 | a call is permitted if and only if some entry is for its pallet and describes a set with its name; on exceptions, if and only if none is |
| `SecondaryKey.AddedLeavesOtherPallets` | primitives/src/secondary_key.rs:106-124 | an entry for one pallet leaves every call of every other pallet as it was |
| `SecondaryKey.AddedGrants` | primitives/src/secondary_key.rs:170-174 | an added entry never revokes a call; exactly what it grants, on permitted entries and on exceptions |
| `SecondaryKey.AddedAllGrants` | primitives/src/secondary_key.rs:170-174 | neither does any sequence of them, which grants exactly the calls of the entries added on permitted entries, and exactly what no remaining exception covers on exceptions |
| `SecondaryKey.AddedIsNotGranted` | primitives/src/secondary_key.rs:170-174 | with a whole pallet excepted, adding one of its calls does not permit it |
| `Ticker.CalcBase26` | primitives/src/ticker.rs:60-76 | the recursion pushes a non-empty A-Z string of rank n + 1 and keeps what was in the buffer |
| `Ticker.Generate` | primitives/src/ticker.rs:60-76 | returns the name of rank n + 1 |
| `Ticker.RankIsOrder` | primitives/src/ticker.rs:60-76 | ranks order names by length and then alphabet, and no two names share one |
| `Ticker.NamesAreNumbered` | primitives/src/ticker.rs:60-76 | every name is generated by exactly one number |
| `Ticker.NamesIncrease` | primitives/src/ticker.rs:60-76 | larger numbers generate later names |
| `Ticker.FromSliceTruncated` | primitives/src/ticker.rs:122-133 | the first twelve bytes, padded with zeros |
| `Ticker.GenerateInto` | primitives/src/ticker.rs:81-83 | the padded and truncated name of the number |
| `Ticker.Len` | primitives/src/ticker.rs:87-94 | the length of the least prefix after which only zeros come |
| `Ticker.FitsIffBelowCapacity` | primitives/src/ticker.rs:81-83 | a name fits twelve bytes if and only if its number is below (26^13 - 26) / 25 |
| `Ticker.TickerIsNewIffBelowCapacity` | primitives/src/ticker.rs:81-83 | a generated ticker differs from all earlier ones if and only if its number is below that |
| `Vesting.PolyxVesting.constructor` | contracts/polyx-vesting/lib.rs:43-56 | nothing released, the endowment held |
| `Vesting.Instantiate` | contracts/polyx-vesting/lib.rs:43-68 | refuses a start in the past and a duration past the largest timestamp, in that order, and nothing else |
| `Vesting.PolyxVesting.DoRelease` | contracts/polyx-vesting/lib.rs:105-117 | refines the release; what the beneficiary receives is what the balance loses and the released total gains |
| `Vesting.ScheduleIsLinear` | contracts/polyx-vesting/lib.rs:129-144 | whenever the schedule of accepted terms does not trap, it is the linear law |
| `Vesting.NeverTrapsIffSound` | contracts/polyx-vesting/lib.rs:129-144 | accepted terms never trap if and only if the duration is positive and the total times the duration fits a `u128` |
| `Vesting.TrapsIff` | contracts/polyx-vesting/lib.rs:129-144 | it traps exactly between start and end, when the duration is zero or the product does not fit 128 bits |
| `Vesting.LinearGrows` | contracts/polyx-vesting/lib.rs:129-144 | the law grows with time and deposits and stays below the total |
| `Vesting.ReleaseCatchesUp` | contracts/polyx-vesting/lib.rs:97-126 | a release attempt that traps changes nothing; any other brings the released amount to the law exactly, keeps the total and never exceeds the balance |
| `Vesting.DepositsAreConserved` | contracts/polyx-vesting/lib.rs:97-144 | for all terms and every run, released plus balance is everything deposited |
| `Vesting.RunIsOnSchedule` | contracts/polyx-vesting/lib.rs:97-144 | over every run of deposits and attempts in order of time, nothing is ever paid ahead of the law, attempts that trap included |
| `Vesting.ReleasedIsLinear` | contracts/polyx-vesting/lib.rs:97-144 | for all accepted terms, after an attempt that does not trap the released amount depends only on the total deposited and the time; one that traps changes nothing |
| `Vesting.AttemptAfterEndPaysAll` | contracts/polyx-vesting/lib.rs:97-144 | an attempt after the end pays everything out, whatever the terms and whatever went before |
| `Erc20.Token.constructor` | contracts/erc20/lib.rs:57-71 | the whole supply belongs to the caller |
| `Erc20.Token.Move` | contracts/erc20/lib.rs:193-219 | refines the transfer between balances, entry removal and errors included |
| `Erc20.ApprovalCapsSpending` | contracts/erc20/lib.rs:142-151 | an approval replaces the previous one and caps what the spender moves until the next: over every run, spent plus left is the approved value |
| `Erc20.SpendMoves` | contracts/erc20/lib.rs:168-183 | spending succeeds if and only if allowance and balance cover it, with the error of each refusal; it pays the recipient from the owner and takes the value off that allowance and no other |
| `Erc20.BalanceIsHistory` | contracts/erc20/lib.rs:130-219 | over every run an account holds what it held and received, less what it sent or had spent |
| `Erc20.OpeningBalances` | contracts/erc20/lib.rs:57-71 | the caller opens with the whole supply, everybody else with nothing, and nothing is allowed |
| `Erc20.Token.DoTransferFrom` | contracts/erc20/lib.rs:168-183 | refines spending an allowance, in place |
| `Erc20.TransferMoves` | contracts/erc20/lib.rs:193-219 | moves the value between two balances, to oneself too, conserves the sum, succeeds if and only if the balance covers it, and cannot overflow |
| `Erc20.SupplyIsConserved` | contracts/erc20/lib.rs:57-219 | over every run the balances sum to the supply, no message traps and a failed one changes nothing |
| `Erc20.AllowanceIsSpent` | contracts/erc20/lib.rs:142-183 | between approvals of a pair, what the spender moved is what the allowance dropped by |
| `Settlement.AssetCount.constructor` | primitives/src/settlement.rs:350-356 | the given counters, which are `u32` |
| `Settlement.AssetCount.Add` | primitives/src/settlement.rs:374-386 | counts one leg in the counter of its kind, modulo 2^32 |
| `Settlement.AssetCount.TryAdd` | primitives/src/settlement.rs:390-425 | from any counters: counts one leg if and only if the counter of its kind stays within the limit, otherwise changes nothing; counters within the limit stay there |
| `Settlement.FromLegs` | primitives/src/settlement.rs:442-452 | the totals of the legs by kind, each modulo 2^32 |
| `Settlement.TryFromLegs` | primitives/src/settlement.rs:428-438 | succeeds if and only if every kind's total is within the limit, and then counts as the unchecked form |
| `Settlement.FilterSender` | primitives/src/settlement.rs:560-602 | the legs sent from the portfolios, with counters that recount them, what the portfolios receive, and everything |
| `Settlement.SentIsSubsequence` | primitives/src/settlement.rs:560-602 | the legs kept are a subsequence in order and exactly those sent from the portfolios |
| `Settlement.SentCountsAdd` | primitives/src/settlement.rs:560-602 | counts over disjoint sets of portfolios add up |
| `Settlement.CoveringSetSendsAll` | primitives/src/settlement.rs:560-602 | portfolios that cover all senders send every on-chain leg |
| `Settlement.ReceivedIsSentByOthers` | primitives/src/settlement.rs:560-602 | where two sides send all on-chain legs, what one counts as received is what the other sends to it |
| `Settlement.TotalCountsByKind` | primitives/src/settlement.rs:442-452 | the totals are the number of fungible legs, of NFTs moved and of off-chain legs |
| `Settlement.AllowedIsAtMost1024` | primitives/src/settlement.rs:390-425 | within the limit means at most 1024 of each |

## Left out

- BridgeDelivery.NoTransactionIsLost: assumes that the scheduler takes every future slot and that blocks are left, because a call that the scheduler refuses is not queued.
- BridgeAcceptance.MintedAsAccepted: is about keys on which no administrator succeeds in acting, because freezing and removing leave the queued call in place; `BridgeWitnesses.StaleCallOverridesRecord` is the run and `BridgeGrants.EveryMintIsBacked` what holds of all runs.
- BridgeLimits.LimitBoundsMinting: is about runs along which the bridge limit stays the same, because the stored total is not tied to the limit it was counted under.
- BridgeSafety.SupplyIsLogged: balances change only through the bridge; transfers, fees, staking and burning by other pallets are not part of this model.
- Vesting.ReleasedIsLinear: the total deposited fits a `u128`; beyond that the source's saturating sum is not the total.
- CheckpointGrid.NextIsFirstLaterGridPoint: out of range, where machine arithmetic would wrap or trap, the model answers `Overflow` instead of a wrapped value.
- Settlement.AssetCount.Add: counters wrap at 2^32 as in a build without overflow checks.
- Events, weights, benchmarking and the multisig proposals behind the controller's calls.
- The FIGI validator, which is the CUSIP check digit behind conditions on fixed positions, and the constructors that wrap a validated string.
- The complexity accounting of permissions, and the parsing of names and tickers from text.
- The other settlement, asset, compliance, corporate-action, staking and identity pallets.
- The remaining contracts, which wrap runtime calls that are not part of this model.
- The node, its RPC and command line, storage migrations, procedural macros and signature recovery.
