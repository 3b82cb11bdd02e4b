# Message race: delivery strategy and race loop

This project models the nonce-delivery core of the messages relay of a cross-chain
bridge. In a *race*, messages with increasing nonces appear on a source chain, and the
relay proves and delivers them to a target chain.

- `BasicStrategy` (relays/messages-relay/src/message_race_strategy.rs) keeps a FIFO
  queue of batches. Each batch is a source header plus the nonce range the source reported
  at that header. The strategy also keeps the best nonce the target has received. It
  chooses the next contiguous range to prove: it starts right after the target's nonce and
  takes only batches whose header the target already knows.
- The race loop (`run` in relays/messages-relay/src/message_race_loop.rs) reacts to the
  completion of six asynchronous operations:
  - the source and target state feeds;
  - nonce requests to either side;
  - proof generation;
  - proof submission.
  After each one it applies the stall rule and decides which requests to issue next.

Modules:

- `Wrappers` (wrappers.dfy): `Option`.
- `RaceTypes` (race_types.dfy): the values the two pieces share. These are:
  - the inclusive `NonceRange` and its `greater_than`;
  - header ids;
  - client snapshots;
  - the nonce reports;
  - `RaceState` and its default.
- `MessageRaceStrategy` (message_race_strategy.dfy) has two parts.
  - Each strategy operation is first defined on values (`Enqueue`, `Drain`,
    `ApplyTargetNonce`, `Scan`, `Select`), with lemmas stating what the source promises.
  - Class `BasicStrategy` follows. Its fields are a `seq` for the queue and a `nat` for the
    target nonce. It updates them in place with the loops of the source, and each method
    is proved against those functions.
- `MessageRaceLoop` (message_race_loop.dfy) has:
  - the free `select_nonces_to_deliver`;
  - class `RaceLoop`, whose fields are the variables of `run`. It has one method per
    completed operation, plus `Decide` for the stall rule and the issuing of requests.
  - An issued request is recorded in the slot of the future that would carry it.
- `MessageRaceStrategyTests` and `MessageRaceLoopTests` replay the unit scenarios of the
  two source files. Each scenario's expected outcome is stated as a postcondition.

Properties proved:

- Queue invariants (`ValidQueue`):
  - every batch is non-empty;
  - batches are strictly increasing and disjoint;
  - every queued nonce is above the target nonce.
- Every strategy operation keeps the queue invariants. It also states exactly which
  nonces stay queued.
- Source reports and target reports:
  - re-reporting known source nonces is a no-op;
  - stale target reports are ignored;
  - repeating a target report is idempotent.
- Draining:
  - drops fully delivered batches;
  - trims the first partly delivered batch under its header;
  - leaves later batches alone.
- A confirmation clears the in-flight delivery exactly when the confirmed nonce covers
  its end.
- Selection:
  - never runs while a delivery is in flight or the target is unknown;
  - starts at `target_nonce + 1`;
  - removes exactly the selected nonces;
  - takes only batches whose header the target knows;
  - stops at the first batch the selector holds back, ending just before the held-back
    part;
  - stops at the first batch whose header the target does not know, which stays in front
    unchanged;
  - fails (the source's `assert!`) exactly when the selector breaks its contract on a
    batch the scan reaches.
- The race loop keeps an invariant: `*_nonces_required` implies that side's snapshot is
  known, so the `expect`s of `run` never fire; and a pending source nonce request never
  asks above `best_at_source`, so every report that keeps the client's promise fits the
  strategy's queue.

## Model

| member | source | states |
|---|---|---|
| RaceTypes.GreaterThan | relays/messages-relay/src/message_race_loop.rs:68-70 | the result is `Some` iff the range reaches above `nonce`. It holds exactly the range's nonces above `nonce`, keeps the end, and stays non-empty when the range was. |
| RaceTypes.DefaultRaceState | relays/messages-relay/src/message_race_loop.rs:404-413 | both snapshots are unknown and no delivery is in flight |
| MessageRaceStrategy.Enqueue | relays/messages-relay/src/message_race_strategy.rs:170-177 | a source report only appends: the old queue is a prefix of the new one, which has one batch more exactly when the report reaches above `best_at_source`; that batch is tagged with the report's header and ends where the report ends |
| MessageRaceStrategy.EnqueueKeepsQueue | relays/messages-relay/src/message_race_strategy.rs:165-178 | appending `greater_than(best_at_source)` of a report keeps the queue invariants and keeps every batch at or below the new best. The queued nonces become the old ones plus the reported ones above `best_at_source`. |
| MessageRaceStrategy.EnqueueKnownIsNoop | relays/messages-relay/src/message_race_strategy.rs:170-177 | a report ending at or below `best_at_source` leaves the queue unchanged |
| MessageRaceStrategy.Drain | relays/messages-relay/src/message_race_strategy.rs:195-204 | draining never lengthens the queue, and a queue that is not drained empty keeps the end of its last batch |
| MessageRaceStrategy.DrainShape | relays/messages-relay/src/message_race_strategy.rs:195-204 | draining removes a prefix of batches that begin and end at or below `nonce`. The next batch is untouched or trimmed to `greater_than(nonce)` under the same header, and later batches are untouched. |
| MessageRaceStrategy.DrainKeepsQueue | relays/messages-relay/src/message_race_strategy.rs:195-204 | after draining at `nonce` the queue is valid with `nonce` as the target nonce, and holds exactly the previously queued nonces above `nonce` |
| MessageRaceStrategy.DrainIdempotent | relays/messages-relay/src/message_race_strategy.rs:195-204 | draining twice at the same nonce is draining once |
| MessageRaceStrategy.ClearConfirmed | relays/messages-relay/src/message_race_strategy.rs:206-222 | `nonces_to_submit` is cleared iff its range ends at or below the nonce, and likewise `nonces_submitted`. Otherwise both are kept, and the snapshots are unchanged. |
| MessageRaceStrategy.ApplyTargetNonce | relays/messages-relay/src/message_race_strategy.rs:189-224 | the target nonce never decreases, a report below it changes nothing, and the snapshots of the race state are kept |
| MessageRaceStrategy.ApplyTargetNonceKeepsQueue | relays/messages-relay/src/message_race_strategy.rs:189-224 | a target report keeps the queue invariants. Afterwards the queue holds exactly the previously queued nonces above the new target nonce. |
| MessageRaceStrategy.ApplyTargetNonceKeepsBest | relays/messages-relay/src/message_race_strategy.rs:151-224 | a target report never lowers `best_at_source` |
| MessageRaceStrategy.TargetUpdateIdempotent | relays/messages-relay/src/message_race_strategy.rs:189-224 | repeating the same target report changes nothing more |
| MessageRaceStrategy.Scan | relays/messages-relay/src/message_race_strategy.rs:94-130 | the scanning loop only consumes the queue: the queue left behind is never longer, and a panic leaves it strictly shorter (the offending batch is gone) |
| MessageRaceStrategy.ScanKeepsQueue | relays/messages-relay/src/message_race_strategy.rs:94-130 | the scanning loop keeps the queue invariants and ends above the target nonce |
| MessageRaceStrategy.ScanTakes | relays/messages-relay/src/message_race_strategy.rs:94-130 | when the scan does not panic, the running end only grows, and a new end is a queued nonce. Exactly the queued nonces up to the end leave the queue, and a scan that takes nothing leaves the queue as it was. |
| MessageRaceStrategy.ScanTakesFinalized | relays/messages-relay/src/message_race_strategy.rs:98-105 | every nonce a scan removes comes from a batch whose header number is at most the target's best known source header |
| MessageRaceStrategy.ScanHoldsBack | relays/messages-relay/src/message_race_strategy.rs:107-129 | after `n` whole batches, a batch whose suffix `r` the selector holds back ends the scan at `r.begin - 1`, or at the end of the batches let through when all of it is held back. `r` is pushed back in front of the unseen batches. |
| MessageRaceStrategy.Select | relays/messages-relay/src/message_race_strategy.rs:77-91 | with a proof waiting, a submission unconfirmed or the target's state unknown, nothing is selected and the queue is unchanged |
| MessageRaceStrategy.SelectSound | relays/messages-relay/src/message_race_strategy.rs:87-132 | the queue stays valid, and a selected range is `target_nonce + 1 ..= e` with `e` a queued nonce. The queue loses exactly the selected nonces, all from batches the target knows, and no selection leaves the queue unchanged. |
| MessageRaceStrategy.WellBehavedNeverPanics | relays/messages-relay/src/message_race_strategy.rs:98-118 | a selector that keeps its contract never triggers the `assert!`. A batch held back for an unknown header always satisfies the contract. |
| MessageRaceStrategy.ScanBreaks | relays/messages-relay/src/message_race_strategy.rs:94-118 | a selector that lets `n` known batches through whole and then breaks its contract on the known batch `n` makes the scan fail |
| MessageRaceStrategy.ScanPanicsIff | relays/messages-relay/src/message_race_strategy.rs:94-118 | on a valid queue the scan fails if and only if the selector breaks its contract on some batch the scan reaches; a batch held back for an unknown header never makes it fail |
| MessageRaceStrategy.BrokenSelectorPanics | relays/messages-relay/src/message_race_strategy.rs:94-118 | with nothing in flight and the target known, a selector breaking its contract on any batch the scan reaches (an empty range, one starting before the batch, or one with another end) makes selection fail |
| MessageRaceStrategy.SelectPanicsIff | relays/messages-relay/src/message_race_strategy.rs:77-118 | on a valid queue, selection fails if and only if nothing is in flight, the target is known, and the selector breaks its contract on a batch the scan reaches |
| MessageRaceStrategy.ScanStopsAtUnknownHeader | relays/messages-relay/src/message_race_strategy.rs:94-124 | with any selector, after `n` batches let through whole, a batch whose header the target does not know stops the scan: the end is that of the batches let through and the batch stays at the front unchanged |
| MessageRaceStrategy.SelectStopsAtUnknownHeader | relays/messages-relay/src/message_race_strategy.rs:87-132 | with any selector, selection then takes `target_nonce + 1 ..=` the end of the `n` batches let through (nothing when `n` is 0) and leaves the queue from the unknown batch on unchanged |
| MessageRaceStrategy.SelectHoldsBack | relays/messages-relay/src/message_race_strategy.rs:120-124 | when the selector holds back the suffix `r` of a batch, selection is `target_nonce + 1 ..= r.begin - 1`, and `r` stays at the front under the same header |
| MessageRaceStrategy.FinalizedPrefix | relays/messages-relay/src/message_race_strategy.rs:98 | the number of front batches whose header number is at most the target's best known source header: all before it are known, and the one at it is not |
| MessageRaceStrategy.AcceptAllScan | relays/messages-relay/src/message_race_strategy.rs:94-130 | with the selector that lets every batch through whole, the scan takes exactly the known front batches and ends where the last of them ends |
| MessageRaceStrategy.AcceptAllSelect | relays/messages-relay/src/message_race_strategy.rs:227-236 | `select_nonces_to_deliver` with nothing in flight selects `target_nonce + 1 ..=` the end of the last known front batch and removes those batches. With no known front batch, nothing is selected. |
| MessageRaceStrategy.AcceptAll | relays/messages-relay/src/message_race_strategy.rs:235 | the selector of `select_nonces_to_deliver` holds nothing back: every batch goes whole |
| MessageRaceStrategy.AcceptAllWellBehaved | relays/messages-relay/src/message_race_strategy.rs:235 | the selector that lets every batch through whole keeps the selector contract |
| MessageRaceStrategy.BasicStrategy.constructor | relays/messages-relay/src/message_race_strategy.rs:52-58 | a new strategy has an empty queue and target nonce 0, and is valid |
| MessageRaceStrategy.BasicStrategy.IsEmpty | relays/messages-relay/src/message_race_strategy.rs:147-149 | true iff the queue is empty, which on a valid strategy means no nonce is queued |
| MessageRaceStrategy.BasicStrategy.BestAtSource | relays/messages-relay/src/message_race_strategy.rs:151-159 | never below the target nonce. It is either the target nonce or the end of the last batch, and no queued nonce is above it. |
| MessageRaceStrategy.BasicStrategy.BestAtTarget | relays/messages-relay/src/message_race_strategy.rs:161-163 | the target nonce, never above `best_at_source` |
| MessageRaceStrategy.BasicStrategy.SourceNoncesUpdated | relays/messages-relay/src/message_race_strategy.rs:165-178 | the queue becomes `Enqueue` of the old queue at the old `best_at_source`. The target nonce is kept, `best_at_source` never decreases, and the invariants hold. |
| MessageRaceStrategy.BasicStrategy.TargetNoncesUpdated | relays/messages-relay/src/message_race_strategy.rs:180-225 | the queue, the target nonce and the race state become `ApplyTargetNonce` of the old ones, `best_at_source` never decreases, and the invariants hold |
| MessageRaceStrategy.BasicStrategy.SelectNoncesToDeliverWithSelector | relays/messages-relay/src/message_race_strategy.rs:68-133 | the selection and the new queue are `Select` of the old queue. The target nonce is kept, and the invariants hold. |
| MessageRaceStrategy.BasicStrategy.SelectNoncesToDeliver | relays/messages-relay/src/message_race_strategy.rs:227-236 | it never panics, and its result and the new queue are `Select` with the selector that lets every batch through whole. A selected range starts at `target_nonce + 1` and is non-empty. |
| MessageRaceLoop.SelectNoncesToDeliver | relays/messages-relay/src/message_race_loop.rs:441-454 | with the target's state unknown it returns `None` and leaves the queue alone. Otherwise it returns the strategy's selection paired with the target's `best_peer` as the proof header. |
| MessageRaceLoop.RaceLoop.constructor | relays/messages-relay/src/message_race_loop.rs:196-212 | both sides online, nothing required or in flight, the default race state, and the countdown started |
| MessageRaceLoop.RaceLoop.SourceStateUpdated | relays/messages-relay/src/message_race_loop.rs:228-235 | a snapshot different from the stored one is stored and raises `source_nonces_required`. An equal snapshot or the end of the feed changes nothing. |
| MessageRaceLoop.RaceLoop.TargetStateUpdated | relays/messages-relay/src/message_race_loop.rs:236-243 | the same for the target side |
| MessageRaceLoop.RaceLoop.SourceNoncesReceived | relays/messages-relay/src/message_race_loop.rs:246-266 | clears `source_nonces_required`. On success the strategy queues the report and the source is online; the report fits because the loop invariant keeps the request's `prev_latest_nonce` at or below `best_at_source`. A connection error ends the loop with `Source`, and any other error leaves the source offline. |
| MessageRaceLoop.RaceLoop.TargetNoncesReceived | relays/messages-relay/src/message_race_loop.rs:267-288 | clears `target_nonces_required`. On success the strategy and the race state take the target's report, and the target is online. Errors are as for the source, with `Target`. |
| MessageRaceLoop.RaceLoop.ProofGenerated | relays/messages-relay/src/message_race_loop.rs:290-308 | on success the proof becomes `nonces_to_submit` and the source is online; errors are as above |
| MessageRaceLoop.RaceLoop.ProofSubmitted | relays/messages-relay/src/message_race_loop.rs:309-328 | on success `nonces_to_submit` is cleared, `nonces_submitted` becomes the submitted range, and the target is online; errors are as above |
| MessageRaceLoop.RaceLoop.CheckStall | relays/messages-relay/src/message_race_loop.rs:333-338 | ends with `Both` iff the countdown has run longer than the stall timeout. Otherwise the countdown restarts exactly when nothing is in flight and the queue is empty. |
| MessageRaceLoop.SourceIssued | relays/messages-relay/src/message_race_loop.rs:340-370 | an online source ends with exactly one of: a proof request for the selection at the target's `best_peer`, a nonce fetch at the source's `best_self` above `best_at_source` (only when no range is selected and nonces are required), or nothing; it stays online exactly when nothing is issued, and `source_nonces_required` is kept |
| MessageRaceLoop.TargetIssued | relays/messages-relay/src/message_race_loop.rs:372-400 | an online target is given the waiting proof iff there is one, is asked for nonces at its `best_self` iff they are required, and stays online exactly when no fetch is issued |
| MessageRaceLoop.RaceLoop.IssueSourceRequest | relays/messages-relay/src/message_race_loop.rs:340-370 | an online source runs the strategy's selection (the queue becomes `Select` of the old one) and its flags and requests become `SourceIssued` of the old ones; an offline source and the queue are left alone |
| MessageRaceLoop.RaceLoop.IssueTargetRequest | relays/messages-relay/src/message_race_loop.rs:372-400 | an online target's flags and requests become `TargetIssued` of the old ones; an offline target is left alone |
| MessageRaceLoop.RaceLoop.Decide | relays/messages-relay/src/message_race_loop.rs:333-400 | ends with `Both` iff the countdown has run past the timeout, changing nothing. Otherwise the countdown restarts exactly when nothing is in flight and the queue was empty; an online source's queue and requests become `Select` and `SourceIssued` of the old ones, an online target's requests become `TargetIssued` of the old ones, and an offline side is left alone |
| MessageRaceStrategyTests.StrategyIsEmptyWorks | relays/messages-relay/src/message_race_strategy.rs:275-280 | a new strategy is empty, and is not empty after a report |
| MessageRaceStrategyTests.BestAtSourceIsNeverLowerThanTargetNonce | relays/messages-relay/src/message_race_strategy.rs:283-291 | `best_at_source` is 0, then 5, then 10 with an empty queue |
| MessageRaceStrategyTests.SourceNonceIsNeverLowerThanKnownTargetNonce | relays/messages-relay/src/message_race_strategy.rs:294-299 | nonces below the target nonce are not queued |
| MessageRaceStrategyTests.SourceNonceIsNeverLowerThanLatestKnownSourceNonce | relays/messages-relay/src/message_race_strategy.rs:302-308 | re-reported nonces are not queued again |
| MessageRaceStrategyTests.TargetNonceIsNeverLowerThanLatestKnownTargetNonce | relays/messages-relay/src/message_race_strategy.rs:311-316 | a lower target report is ignored |
| MessageRaceStrategyTests.UpdatedTargetNonceRemovesQueuedEntries | relays/messages-relay/src/message_race_strategy.rs:319-329 | confirming 15 leaves `16..=20`, and confirming 17 trims it to `18..=20` |
| MessageRaceStrategyTests.SelectedNoncesAreDroppedOnTargetNonceUpdate | relays/messages-relay/src/message_race_strategy.rs:332-340 | `nonces_to_submit` survives a partial confirmation and is cleared by a full one |
| MessageRaceStrategyTests.SubmittedNoncesAreDroppedOnTargetNonceUpdate | relays/messages-relay/src/message_race_strategy.rs:343-351 | the same for `nonces_submitted` |
| MessageRaceStrategyTests.NothingIsSelectedIfSomethingIsAlreadySelected | relays/messages-relay/src/message_race_strategy.rs:354-360 | no selection while a proof waits to be submitted |
| MessageRaceStrategyTests.NothingIsSelectedIfSomethingIsAlreadySubmitted | relays/messages-relay/src/message_race_strategy.rs:363-369 | no selection while a submission is unconfirmed |
| MessageRaceStrategyTests.SelectNoncesToDeliverWorks | relays/messages-relay/src/message_race_strategy.rs:372-395 | the selections are `1..=6`, nothing, `7..=8`, then nothing |
| MessageRaceStrategyTests.SelectNoncesToDeliverAbleToSplitRangesWithSelector | relays/messages-relay/src/message_race_strategy.rs:398-411 | a selector holding back `50..=100` gives `1..=49` |
| MessageRaceStrategyTests.RunPanicTestForIncorrectSelector | relays/messages-relay/src/message_race_strategy.rs:413-426 | any selector breaking its contract on `51..=100` makes selection fail |
| MessageRaceStrategyTests.SelectNoncesToDeliverPanicsIfSelectorReturnsEmptyRange | relays/messages-relay/src/message_race_strategy.rs:428-433 | an empty range from the selector makes selection fail |
| MessageRaceStrategyTests.SelectNoncesToDeliverPanicsIfSelectorReturnsRangeThatStartsBeforePassedRange | relays/messages-relay/src/message_race_strategy.rs:435-439 | a range starting before the batch makes selection fail |
| MessageRaceStrategyTests.SelectNoncesToDeliverPanicsIfSelectorReturnsRangeWithMismatchedEnd | relays/messages-relay/src/message_race_strategy.rs:441-445 | a range with another end makes selection fail |
| MessageRaceLoopTests.ProofIsGeneratedAtBestBlockKnownToTargetNode | relays/messages-relay/src/message_race_loop.rs:462-505 | nonces queued at header 6 are proved as `6..=10` at header 8, the target's `best_peer`, not at the source's header 10 |

## Left out

- Asynchronous plumbing is not modelled: `futures::select!`, `Fuse`, `pin_mut!`, the
  state streams and the client traits. Instead:
  - each completed operation is a method of `RaceLoop`;
  - each issued request is recorded in the slot of its future;
  - the order in which completions arrive is up to the caller.
- `process_future_result`, `fail_if_connection_error`, the retry backoff and its sleep
  belong to a helper crate that is not part of this model. A completed request is
  modelled as one of three outcomes:
  - success, which runs the callback and puts the side online;
  - a connection error, which ends the loop with that side;
  - any other error, which puts the side offline.
  This reading follows `fail_if_connection_error(side)?` as written. The go-offline delay
  futures are never polled by the `select!` in `run`, so the model has no event that puts
  a side back online after a non-connection error.
- Wall-clock time and progress logging are not modelled: `Instant`, `Duration` and
  `print_race_progress`. The current time is a `nat` parameter of `Decide` and
  `CheckStall`, and `Elapsed` saturates at zero.
- Logging, client names and panic messages are not modelled.
- Hashes and proof payloads are opaque. A header is a `(number, hash)` pair of `nat`s,
  and only the number is ordered. A proof is a `seq<bv8>`. The `confirmed_nonce` fields of
  the reports and `ProofParameters` (which is `()`) are not modelled.
- Source and target header ids share one datatype. The generic header types of the
  source are not kept apart.
- `ClientState` is defined in a file that is not part of this model. It is modelled as a
  `(best_self, best_peer)` pair compared structurally.
- The selector of `select_nonces_to_deliver_with_selector` is a pure function. The source
  accepts an `FnMut` that could keep state between calls.
- The `NoncesRange` trait is modelled only through its `RangeInclusive` form, whose
  implementation is not part of this model. `GreaterThan(range, n)` is
  `Some(max(begin, n + 1) ..= end)` when `end > n`, and `None` otherwise. On an inverted
  range this differs from the trait's doc comment: `GreaterThan(NonceRange(10, 7), 5)` is
  `Some(NonceRange(10, 7))`, a range with no nonces, where the comment promises `None`.
- Nonces are unbounded `nat`s. Overflow of `u64` in `target_nonce + 1` and
  `begin() - 1` is not modelled.
- MessageRaceStrategy.BasicStrategy.SourceNoncesUpdated: requires that a report reaching
  above `best_at_source` is not an inverted (empty) range. Without this, the source would
  queue an empty batch and break the invariant that batches are non-empty; and once that
  batch is reached while its header is unknown to the target, it is requeued whole with
  `begin > end` and the `assert!` of the selection loop fires. Inside the race loop the
  requirement is met, not assumed: `RaceLoop.Valid` keeps a pending nonce request's
  `prev_latest_nonce` at or below `best_at_source` (selection, which lowers
  `best_at_source` by popping batches, runs only while the source is online and so never
  while a nonce request is in flight, and a target report never lowers it, by
  `ApplyTargetNonceKeepsBest`), and a report that keeps the client's promise then fits.
- MessageRaceLoop.RaceLoop.SourceNoncesReceived: requires a successful report to start no
  later than `prev_latest_nonce + 1`, which is the `SourceClient` promise that the report
  holds every nonce generated after `prev_latest_nonce`
  (relays/messages-relay/src/message_race_loop.rs:76-77). The loop does not check it.
- Members with `old`, `modifies` or `fresh` in their contracts state the new state of the
  object. The properties that need several calls are proved on the value functions they
  are tied to (`Enqueue`, `ApplyTargetNonce`, `Select`), not on sequences of method calls.
