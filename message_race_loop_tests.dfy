/** The unit scenario of relays/messages-relay/src/message_race_loop.rs, replayed on the
    model. */
module MessageRaceLoopTests {
  import opened Wrappers
  import opened RaceTypes
  import opened MessageRaceStrategy
  import opened MessageRaceLoop

  /** `proof_is_generated_at_best_block_known_to_target_node`: nonces generated at source
      header 6 are proved at source header 8, the best one the target knows, although the
      source is already at header 10. */
  method ProofIsGeneratedAtBestBlockKnownToTargetNode() returns (request: Option<ProofRequest>)
    ensures request == Some(ProofRequest(HeaderId(8, 8), NonceRange(6, 10)))
  {
    var raceState := RaceState(
      Some(ClientState(HeaderId(10, 10), HeaderId(0, 0))),
      Some(ClientState(HeaderId(0, 0), HeaderId(8, 8))),
      None,
      None);
    var strategy := new BasicStrategy();
    strategy.SourceNoncesUpdated(HeaderId(6, 6), SourceClientNonces(NonceRange(0, 10)));
    var queued := QueueEntry(HeaderId(6, 6), NonceRange(1, 10));
    assert strategy.sourceQueue == [queued];
    raceState := strategy.TargetNoncesUpdated(TargetClientNonces(5), raceState);
    assert strategy.sourceQueue == [queued.(range := NonceRange(6, 10))];
    assert FinalizedPrefix(strategy.sourceQueue, 8) == 1;
    AcceptAllSelect(strategy.sourceQueue, 5, raceState);
    request := SelectNoncesToDeliver(raceState, strategy);
  }
}
