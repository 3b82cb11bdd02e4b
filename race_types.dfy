/** The values shared by the race loop and the delivery strategy
    (relays/messages-relay/src/message_race_loop.rs). */
module RaceTypes {
  import opened Wrappers

  /** An inclusive range of message nonces `begin..=end`. Like Rust's `RangeInclusive`,
      a range with `end < begin` is allowed and holds no nonce. */
  datatype NonceRange = NonceRange(begin: nat, end: nat) {

    predicate Contains(k: nat) {
      begin <= k <= end
    }

    /** The range holds at least one nonce. */
    predicate NonEmpty() {
      begin <= end
    }
  }

  function Max(a: nat, b: nat): nat {
    if a < b then b else a
  }

  /** `NoncesRange::greater_than`: the part of `range` made of nonces above `nonce`,
      or `None` when the range ends at or below `nonce`. */
  function GreaterThan(range: NonceRange, nonce: nat): (r: Option<NonceRange>)
    ensures r.Some? <==> nonce < range.end
    ensures r.None? ==> forall k: nat :: range.Contains(k) ==> k <= nonce
    ensures r.Some? ==> r.value.end == range.end && nonce < r.value.begin && range.begin <= r.value.begin
    ensures r.Some? ==> forall k: nat :: r.value.Contains(k) <==> range.Contains(k) && nonce < k
    ensures r.Some? && range.NonEmpty() ==> r.value.NonEmpty()
  {
    if nonce < range.end then Some(NonceRange(Max(range.begin, nonce + 1), range.end)) else None
  }

  /** A header of either chain. Only the number is ever ordered; the hash takes part
      in equality only. */
  datatype HeaderId = HeaderId(number: nat, hash: nat)

  /** `ClientState`: the best header of a client's own chain and the best header of the
      other chain that the client knows of. */
  datatype ClientState = ClientState(bestSelf: HeaderId, bestPeer: HeaderId)

  /** Opaque proof of a nonce range, as produced by the source client. */
  type Proof = seq<bv8>

  /** `SourceClientNonces`: nonces that appeared at the source since the watermark passed
      with the request. */
  datatype SourceClientNonces = SourceClientNonces(newNonces: NonceRange)

  /** `TargetClientNonces`: the latest nonce the target has received. */
  datatype TargetClientNonces = TargetClientNonces(latestNonce: nat)

  /** A generated proof waiting to be submitted: the source header it was generated at,
      the nonces it proves and the proof itself. */
  datatype Submission = Submission(atBlock: HeaderId, nonces: NonceRange, proof: Proof)

  /** `RaceState`: the latest snapshots of both clients and the single delivery in flight. */
  datatype RaceState = RaceState(
    sourceState: Option<ClientState>,
    targetState: Option<ClientState>,
    noncesToSubmit: Option<Submission>,
    noncesSubmitted: Option<NonceRange>)
  {
    /** A proof is waiting to be submitted, or a submitted one is not yet confirmed. */
    predicate DeliveryInFlight() {
      noncesToSubmit.Some? || noncesSubmitted.Some?
    }
  }

  /** `RaceState::default`: nothing is known about either client and nothing is in flight. */
  function DefaultRaceState(): (s: RaceState)
    ensures s.sourceState.None? && s.targetState.None?
    ensures !s.DeliveryInFlight()
  {
    RaceState(None, None, None, None)
  }
}
