/** The unit scenarios of relays/messages-relay/src/message_race_strategy.rs, replayed on
    `BasicStrategy`: each method runs the scenario on a fresh strategy and states, as its
    postcondition, what the scenario asserts. */
module MessageRaceStrategyTests {
  import opened Wrappers
  import opened RaceTypes
  import opened MessageRaceStrategy

  /** `header_id(n)` of the tests: number and hash both `n`. */
  function Header(n: nat): HeaderId {
    HeaderId(n, n)
  }

  function Reported(begin: nat, end: nat): SourceClientNonces {
    SourceClientNonces(NonceRange(begin, end))
  }

  function Observed(bestPeer: nat): RaceState {
    DefaultRaceState().(targetState := Some(ClientState(Header(0), Header(bestPeer))))
  }

  /** `strategy_is_empty_works`. */
  method StrategyIsEmptyWorks() returns (before: bool, after: bool)
    ensures before && !after
  {
    var strategy := new BasicStrategy();
    before := strategy.IsEmpty();
    strategy.SourceNoncesUpdated(Header(1), Reported(1, 1));
    after := strategy.IsEmpty();
  }

  /** `best_at_source_is_never_lower_than_target_nonce`. */
  method BestAtSourceIsNeverLowerThanTargetNonce() returns (initial: nat, reported: nat, confirmed: nat, queue: seq<QueueEntry>)
    ensures initial == 0 && reported == 5 && confirmed == 10 && queue == []
  {
    var strategy := new BasicStrategy();
    initial := strategy.BestAtSource();
    strategy.SourceNoncesUpdated(Header(1), Reported(1, 5));
    reported := strategy.BestAtSource();
    var q := strategy.sourceQueue;
    assert q == [QueueEntry(Header(1), NonceRange(1, 5))];
    assert Drain(q, 10) == Drain(q[1..], 10) == [];
    var _ := strategy.TargetNoncesUpdated(TargetClientNonces(10), DefaultRaceState());
    queue := strategy.sourceQueue;
    confirmed := strategy.BestAtSource();
  }

  /** `source_nonce_is_never_lower_than_known_target_nonce`. */
  method SourceNonceIsNeverLowerThanKnownTargetNonce() returns (queue: seq<QueueEntry>)
    ensures queue == []
  {
    var strategy := new BasicStrategy();
    var _ := strategy.TargetNoncesUpdated(TargetClientNonces(10), DefaultRaceState());
    strategy.SourceNoncesUpdated(Header(1), Reported(1, 5));
    queue := strategy.sourceQueue;
  }

  /** `source_nonce_is_never_lower_than_latest_known_source_nonce`. */
  method SourceNonceIsNeverLowerThanLatestKnownSourceNonce() returns (queue: seq<QueueEntry>)
    ensures queue == [QueueEntry(Header(1), NonceRange(1, 5))]
  {
    var strategy := new BasicStrategy();
    strategy.SourceNoncesUpdated(Header(1), Reported(1, 5));
    strategy.SourceNoncesUpdated(Header(2), Reported(1, 3));
    strategy.SourceNoncesUpdated(Header(2), Reported(1, 5));
    queue := strategy.sourceQueue;
  }

  /** `target_nonce_is_never_lower_than_latest_known_target_nonce`. */
  method TargetNonceIsNeverLowerThanLatestKnownTargetNonce() returns (targetNonce: nat)
    ensures targetNonce == 10
  {
    var strategy := new BasicStrategy();
    var _ := strategy.TargetNoncesUpdated(TargetClientNonces(10), DefaultRaceState());
    var _ := strategy.TargetNoncesUpdated(TargetClientNonces(5), DefaultRaceState());
    targetNonce := strategy.targetNonce;
  }

  /** The four batches reported in `updated_target_nonce_removes_queued_entries`. */
  function FourBatches(): seq<QueueEntry> {
    [QueueEntry(Header(1), NonceRange(1, 5)), QueueEntry(Header(2), NonceRange(6, 10)),
     QueueEntry(Header(3), NonceRange(11, 15)), QueueEntry(Header(4), NonceRange(16, 20))]
  }

  method ReportFourBatches() returns (strategy: BasicStrategy)
    ensures fresh(strategy) && strategy.Valid()
    ensures strategy.sourceQueue == FourBatches() && strategy.targetNonce == 0
  {
    var b := FourBatches();
    strategy := new BasicStrategy();
    strategy.SourceNoncesUpdated(Header(1), Reported(1, 5));
    assert strategy.sourceQueue == b[..1];
    strategy.SourceNoncesUpdated(Header(2), Reported(6, 10));
    assert strategy.sourceQueue == b[..2];
    strategy.SourceNoncesUpdated(Header(3), Reported(11, 15));
    assert strategy.sourceQueue == b[..3];
    strategy.SourceNoncesUpdated(Header(4), Reported(16, 20));
    assert strategy.sourceQueue == b;
  }

  /** `updated_target_nonce_removes_queued_entries`. */
  method UpdatedTargetNonceRemovesQueuedEntries() returns (first: seq<QueueEntry>, second: seq<QueueEntry>)
    ensures first == [QueueEntry(Header(4), NonceRange(16, 20))]
    ensures second == [QueueEntry(Header(4), NonceRange(18, 20))]
  {
    var strategy := ReportFourBatches();
    var b := FourBatches();
    assert Drain(b[3..], 15) == b[3..];
    assert Drain(b[2..], 15) == Drain(b[3..], 15);
    assert Drain(b[1..], 15) == Drain(b[2..], 15);
    assert Drain(b, 15) == Drain(b[1..], 15);
    var _ := strategy.TargetNoncesUpdated(TargetClientNonces(15), DefaultRaceState());
    first := strategy.sourceQueue;
    var _ := strategy.TargetNoncesUpdated(TargetClientNonces(17), DefaultRaceState());
    second := strategy.sourceQueue;
  }

  /** `selected_nonces_are_dropped_on_target_nonce_update`. */
  method SelectedNoncesAreDroppedOnTargetNonceUpdate() returns (partly: RaceState, fully: RaceState)
    ensures partly.noncesToSubmit.Some? && fully.noncesToSubmit.None?
  {
    var state := DefaultRaceState().(noncesToSubmit := Some(Submission(Header(1), NonceRange(5, 10), [])));
    var strategy := new BasicStrategy();
    partly := strategy.TargetNoncesUpdated(TargetClientNonces(7), state);
    fully := strategy.TargetNoncesUpdated(TargetClientNonces(10), partly);
  }

  /** `submitted_nonces_are_dropped_on_target_nonce_update`. */
  method SubmittedNoncesAreDroppedOnTargetNonceUpdate() returns (partly: RaceState, fully: RaceState)
    ensures partly.noncesSubmitted.Some? && fully.noncesSubmitted.None?
  {
    var state := DefaultRaceState().(noncesSubmitted := Some(NonceRange(5, 10)));
    var strategy := new BasicStrategy();
    partly := strategy.TargetNoncesUpdated(TargetClientNonces(7), state);
    fully := strategy.TargetNoncesUpdated(TargetClientNonces(10), partly);
  }

  /** `nothing_is_selected_if_something_is_already_selected`. */
  method NothingIsSelectedIfSomethingIsAlreadySelected() returns (selected: Option<NonceRange>)
    ensures selected.None?
  {
    var state := DefaultRaceState().(noncesToSubmit := Some(Submission(Header(1), NonceRange(1, 10), [])));
    var strategy := new BasicStrategy();
    strategy.SourceNoncesUpdated(Header(1), Reported(1, 10));
    selected := strategy.SelectNoncesToDeliver(state);
  }

  /** `nothing_is_selected_if_something_is_already_submitted`. */
  method NothingIsSelectedIfSomethingIsAlreadySubmitted() returns (selected: Option<NonceRange>)
    ensures selected.None?
  {
    var state := DefaultRaceState().(noncesSubmitted := Some(NonceRange(1, 10)));
    var strategy := new BasicStrategy();
    strategy.SourceNoncesUpdated(Header(1), Reported(1, 10));
    selected := strategy.SelectNoncesToDeliver(state);
  }

  /** The batches reported in `select_nonces_to_deliver_works`. */
  function SparseBatches(): seq<QueueEntry> {
    [QueueEntry(Header(1), NonceRange(1, 1)), QueueEntry(Header(2), NonceRange(2, 2)),
     QueueEntry(Header(3), NonceRange(6, 6)), QueueEntry(Header(5), NonceRange(8, 8))]
  }

  method ReportSparseBatches() returns (strategy: BasicStrategy)
    ensures fresh(strategy) && strategy.Valid()
    ensures strategy.sourceQueue == SparseBatches() && strategy.targetNonce == 0
  {
    var b := SparseBatches();
    strategy := new BasicStrategy();
    strategy.SourceNoncesUpdated(Header(1), Reported(1, 1));
    assert strategy.sourceQueue == b[..1];
    strategy.SourceNoncesUpdated(Header(2), Reported(2, 2));
    assert strategy.sourceQueue == b[..2];
    strategy.SourceNoncesUpdated(Header(3), Reported(6, 6));
    assert strategy.sourceQueue == b[..3];
    strategy.SourceNoncesUpdated(Header(5), Reported(8, 8));
    assert strategy.sourceQueue == b;
  }

  /** `select_nonces_to_deliver_works`: with the target knowing source header 4 the batches
      up to header 3 go; once the target knows header 5 the last one goes too. */
  method SelectNoncesToDeliverWorks() returns (first: Option<NonceRange>, second: Option<NonceRange>,
                                               third: Option<NonceRange>, fourth: Option<NonceRange>)
    ensures first == Some(NonceRange(1, 6)) && second.None?
    ensures third == Some(NonceRange(7, 8)) && fourth.None?
  {
    var strategy := ReportSparseBatches();
    var b := SparseBatches();
    var state := Observed(4);
    assert FinalizedPrefix(b, 4) == 3 by {
      assert FinalizedPrefix(b[3..], 4) == 0;
      assert FinalizedPrefix(b[2..], 4) == 1 + FinalizedPrefix(b[3..], 4);
      assert FinalizedPrefix(b[1..], 4) == 1 + FinalizedPrefix(b[2..], 4);
    }
    AcceptAllSelect(b, 0, state);
    first := strategy.SelectNoncesToDeliver(state);
    assert strategy.sourceQueue == b[3..];
    state := strategy.TargetNoncesUpdated(TargetClientNonces(6), state);
    assert strategy.sourceQueue == b[3..];
    AcceptAllSelect(b[3..], 6, state);
    second := strategy.SelectNoncesToDeliver(state);

    state := state.(targetState := Observed(5).targetState);
    assert FinalizedPrefix(b[3..], 5) == 1;
    AcceptAllSelect(b[3..], 6, state);
    third := strategy.SelectNoncesToDeliver(state);
    assert strategy.sourceQueue == [];
    state := strategy.TargetNoncesUpdated(TargetClientNonces(8), state);
    AcceptAllSelect([], 8, state);
    fourth := strategy.SelectNoncesToDeliver(state);
  }

  /** `select_nonces_to_deliver_able_to_split_ranges_with_selector`. */
  method SelectNoncesToDeliverAbleToSplitRangesWithSelector() returns (selection: Selection)
    ensures selection == Selected(NonceRange(1, 49))
  {
    var strategy := new BasicStrategy();
    strategy.SourceNoncesUpdated(Header(1), Reported(1, 100));
    var selector := (range: NonceRange) => Some(NonceRange(50, 100));
    var state := Observed(1);
    SelectHoldsBack(strategy.sourceQueue, 0, state, selector, 0, NonceRange(50, 100));
    selection := strategy.SelectNoncesToDeliverWithSelector(state, selector);
  }

  /** `run_panic_test_for_incorrect_selector`: the batch 1..=100 is reported, the target
      confirms up to 50, and the selector is shown what is left, 51..=100. */
  method RunPanicTestForIncorrectSelector(invalidSelector: NonceRange -> Option<NonceRange>) returns (selection: Selection)
    requires invalidSelector(NonceRange(51, 100)).Some?
    requires !SelectorContract(NonceRange(51, 100), invalidSelector(NonceRange(51, 100)).value)
    ensures selection == SelectorBroken
  {
    var strategy := new BasicStrategy();
    strategy.SourceNoncesUpdated(Header(1), Reported(1, 100));
    var state := strategy.TargetNoncesUpdated(TargetClientNonces(50), DefaultRaceState());
    assert strategy.sourceQueue == [QueueEntry(Header(1), NonceRange(51, 100))];
    state := state.(targetState := Observed(1).targetState);
    BrokenSelectorPanics(strategy.sourceQueue, strategy.targetNonce, state, invalidSelector, 0);
    selection := strategy.SelectNoncesToDeliverWithSelector(state, invalidSelector);
  }

  /** The selector asking to hold back `begin - 1 ..= end`, which starts before the range. */
  function StartsEarlier(range: NonceRange): Option<NonceRange> {
    if range.begin == 0 then None else Some(NonceRange(range.begin - 1, range.end))
  }

  /** `select_nonces_to_deliver_panics_if_selector_returns_empty_range`. */
  method SelectNoncesToDeliverPanicsIfSelectorReturnsEmptyRange() returns (selection: Selection)
    ensures selection == SelectorBroken
  {
    selection := RunPanicTestForIncorrectSelector((range: NonceRange) => Some(NonceRange(2, 1)));
  }

  /** `select_nonces_to_deliver_panics_if_selector_returns_range_that_starts_before_passed_range`. */
  method SelectNoncesToDeliverPanicsIfSelectorReturnsRangeThatStartsBeforePassedRange() returns (selection: Selection)
    ensures selection == SelectorBroken
  {
    selection := RunPanicTestForIncorrectSelector(StartsEarlier);
  }

  /** `select_nonces_to_deliver_panics_if_selector_returns_range_with_mismatched_end`. */
  method SelectNoncesToDeliverPanicsIfSelectorReturnsRangeWithMismatchedEnd() returns (selection: Selection)
    ensures selection == SelectorBroken
  {
    selection := RunPanicTestForIncorrectSelector((range: NonceRange) => Some(NonceRange(range.begin, range.end + 1)));
  }
}
