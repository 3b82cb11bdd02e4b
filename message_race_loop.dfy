/** The race loop (relays/messages-relay/src/message_race_loop.rs, function `run`), as an
    explicit state machine driven by the completion of its asynchronous operations.

    The loop waits for one of six operations to complete (two client state feeds, two
    nonce requests, proof generation, proof submission), applies the outcome to the race
    state, the strategy and its own flags, checks for a stall, and then decides which
    requests to issue next. Here each completion is one method and the decision is
    `Decide`; an issued request is recorded in the slot of the future that would carry
    it. The strategy is `BasicStrategy`. */
module MessageRaceLoop {
  import opened Wrappers
  import opened RaceTypes
  import opened MessageRaceStrategy

  /** `FailedClient`: the side whose failure ends the loop. */
  datatype FailedClient = Source | Target | Both

  /** After an event: the loop goes on, or `run` returns `Err(client)`. */
  datatype LoopStatus = Running | Failed(client: FailedClient)

  /** How a client request completed: with a value, or with an error that is or is not a
      connection error. */
  datatype RequestResult<T> = Ok(value: T) | Err(isConnectionError: bool)

  /** `SourceClient::nonces` request: at which source header, and the nonce already known. */
  datatype SourceNoncesRequest = SourceNoncesRequest(atBlock: HeaderId, prevLatestNonce: nat)

  /** `SourceClient::generate_proof` request: at which source header, and for which nonces. */
  datatype ProofRequest = ProofRequest(atBlock: HeaderId, nonces: NonceRange)

  /** One side's flags and the requests it has in flight: whether the client is online,
      whether nonces must be fetched from it, and the pending futures of that side. */
  datatype SourceFlags = SourceFlags(
    online: bool,
    noncesRequired: bool,
    nonces: Option<SourceNoncesRequest>,
    generateProof: Option<ProofRequest>)

  datatype TargetFlags = TargetFlags(
    online: bool,
    noncesRequired: bool,
    nonces: Option<HeaderId>,
    submitProof: Option<Submission>)

  /** The time since `since`, saturating at zero as `Instant::elapsed` does. */
  function Elapsed(since: nat, now: nat): nat {
    if since <= now then now - since else 0
  }

  /** The free function `select_nonces_to_deliver`: with the target's state unknown nothing is
      asked of the strategy; otherwise the strategy's selection is paired with the best
      source header the target knows, which is where the proof must be generated. */
  method SelectNoncesToDeliver(raceState: RaceState, strategy: BasicStrategy) returns (request: Option<ProofRequest>)
    requires strategy.Valid()
    modifies strategy
    ensures strategy.Valid() && strategy.targetNonce == old(strategy.targetNonce)
    ensures raceState.targetState.None? ==> request.None? && strategy.sourceQueue == old(strategy.sourceQueue)
    ensures var step := Select(old(strategy.sourceQueue), strategy.targetNonce, raceState, AcceptAll);
      && strategy.sourceQueue == step.queue
      && step.selection != SelectorBroken
      && request == (if step.selection.Selected?
                     then Some(ProofRequest(raceState.targetState.value.bestPeer, step.selection.nonces))
                     else None)
    ensures request.Some? ==> request.value.nonces.begin == strategy.targetNonce + 1 <= request.value.nonces.end
  {
    match raceState.targetState
    case None =>
      request := None;
    case Some(targetState) =>
      var selected := strategy.SelectNoncesToDeliver(raceState);
      request := if selected.Some? then Some(ProofRequest(targetState.bestPeer, selected.value)) else None;
  }

  /** What an online source is left with after one decision: a proof request when a range
      is selected, else a nonce fetch at its own best header above `bestAtSource` when
      nonces are required (both taking it offline), else nothing, staying online. An online
      source has no request in flight, so it ends with at most one. */
  function SourceIssued(flags: SourceFlags, selection: Selection, rs: RaceState, bestAtSource: nat): (r: SourceFlags)
    requires flags.nonces.None? && flags.generateProof.None?
    requires selection.Selected? ==> rs.targetState.Some?
    requires flags.noncesRequired ==> rs.sourceState.Some?
    ensures r.noncesRequired == flags.noncesRequired
    ensures r.online <==> !selection.Selected? && !flags.noncesRequired
    ensures r.generateProof.Some? <==> selection.Selected?
    ensures r.nonces.Some? <==> !selection.Selected? && flags.noncesRequired
    ensures selection.Selected? ==>
      r.generateProof == Some(ProofRequest(rs.targetState.value.bestPeer, selection.nonces))
    ensures !selection.Selected? && flags.noncesRequired ==>
      r.nonces == Some(SourceNoncesRequest(rs.sourceState.value.bestSelf, bestAtSource))
  {
    if selection.Selected? then
      flags.(online := false, generateProof := Some(ProofRequest(rs.targetState.value.bestPeer, selection.nonces)))
    else if flags.noncesRequired then
      flags.(online := false, nonces := Some(SourceNoncesRequest(rs.sourceState.value.bestSelf, bestAtSource)))
    else
      flags.(online := true)
  }

  /** What an online target is left with after one decision: the waiting proof is
      submitted if there is one, and target nonces are fetched at its own best header when
      required, which is the only case in which it goes offline. */
  function TargetIssued(flags: TargetFlags, rs: RaceState): (r: TargetFlags)
    requires flags.noncesRequired ==> rs.targetState.Some?
    ensures r.noncesRequired == flags.noncesRequired
    ensures r.online <==> !flags.noncesRequired
    ensures rs.noncesToSubmit.Some? ==> r.submitProof == rs.noncesToSubmit
    ensures rs.noncesToSubmit.None? ==> r.submitProof == flags.submitProof
    ensures flags.noncesRequired ==> r.nonces == Some(rs.targetState.value.bestSelf)
    ensures !flags.noncesRequired ==> r.nonces == flags.nonces
  {
    var submitted := if rs.noncesToSubmit.Some? then flags.(submitProof := rs.noncesToSubmit) else flags;
    if flags.noncesRequired then submitted.(online := false, nonces := Some(rs.targetState.value.bestSelf))
    else submitted.(online := true)
  }

  /** The state of one `run`: the race state, the strategy, each side's flags and the
      requests in flight, and the stall countdown. */
  class RaceLoop {
    const strategy: BasicStrategy
    const stallTimeout: nat
    var raceState: RaceState
    /** The instant at which the stall countdown was last restarted. */
    var stallCountdown: nat

    var sourceClientIsOnline: bool
    var sourceNoncesRequired: bool
    /** The pending `source_nonces` future, if any. */
    var sourceNonces: Option<SourceNoncesRequest>
    /** The pending `source_generate_proof` future, if any. */
    var sourceGenerateProof: Option<ProofRequest>

    var targetClientIsOnline: bool
    var targetNoncesRequired: bool
    /** The pending `target_nonces` future, if any: the target header it asks at. */
    var targetNonces: Option<HeaderId>
    /** The pending `target_submit_proof` future, if any. */
    var targetSubmitProof: Option<Submission>

    /** The loop invariant: nonces are only required from a side whose state is known (so the
        `expect`s in `run` never fire), the source has at most one request in flight, and none
        while it is marked online. A pending nonce request asks for nonces above a value that
        `best_at_source` has not dropped below since: selection runs only while the source is
        online, and a target report never lowers it. */
    ghost predicate Valid()
      reads this, strategy
    {
      && strategy.Valid()
      && (sourceNoncesRequired ==> raceState.sourceState.Some?)
      && (targetNoncesRequired ==> raceState.targetState.Some?)
      && (sourceClientIsOnline ==> sourceNonces.None? && sourceGenerateProof.None?)
      && (sourceNonces.None? || sourceGenerateProof.None?)
      && (sourceNonces.Some? ==> sourceNonces.value.prevLatestNonce <= strategy.BestAtSource())
    }

    /** The source side's flags and pending requests, as one value. */
    ghost function SourceSide(): SourceFlags
      reads this
    {
      SourceFlags(sourceClientIsOnline, sourceNoncesRequired, sourceNonces, sourceGenerateProof)
    }

    /** The target side's flags and pending requests, as one value. */
    ghost function TargetSide(): TargetFlags
      reads this
    {
      TargetFlags(targetClientIsOnline, targetNoncesRequired, targetNonces, targetSubmitProof)
    }

    /** The start of `run`: both clients online, nothing required or in flight, the default
        race state, and the countdown started now. */
    constructor (strategy: BasicStrategy, stallTimeout: nat, now: nat)
      requires strategy.Valid()
      ensures Valid()
      ensures this.strategy == strategy && this.stallTimeout == stallTimeout
      ensures raceState == DefaultRaceState() && stallCountdown == now
      ensures SourceSide() == SourceFlags(online := true, noncesRequired := false, nonces := None, generateProof := None)
      ensures TargetSide() == TargetFlags(online := true, noncesRequired := false, nonces := None, submitProof := None)
    {
      this.strategy := strategy;
      this.stallTimeout := stallTimeout;
      raceState := DefaultRaceState();
      stallCountdown := now;
      sourceClientIsOnline, sourceNoncesRequired, sourceNonces, sourceGenerateProof := true, false, None, None;
      targetClientIsOnline, targetNoncesRequired, targetNonces, targetSubmitProof := true, false, None, None;
    }

    /** The source state feed yields: a new snapshot is stored and makes source nonces
        required; a repeated snapshot, or the end of the feed, changes nothing. */
    method SourceStateUpdated(update: Option<ClientState>)
      requires Valid()
      modifies this
      ensures Valid()
      ensures update.None? || update == old(raceState.sourceState) ==> unchanged(this)
      ensures update.Some? && update != old(raceState.sourceState) ==>
        && raceState == old(raceState).(sourceState := update)
        && SourceSide() == old(SourceSide()).(noncesRequired := true)
        && TargetSide() == old(TargetSide())
        && stallCountdown == old(stallCountdown)
    {
      if update.Some? {
        if raceState.sourceState != update {
          sourceNoncesRequired := true;
          raceState := raceState.(sourceState := update);
        }
      }
    }

    /** The target state feed yields: as for the source, on the target's side. */
    method TargetStateUpdated(update: Option<ClientState>)
      requires Valid()
      modifies this
      ensures Valid()
      ensures update.None? || update == old(raceState.targetState) ==> unchanged(this)
      ensures update.Some? && update != old(raceState.targetState) ==>
        && raceState == old(raceState).(targetState := update)
        && TargetSide() == old(TargetSide()).(noncesRequired := true)
        && SourceSide() == old(SourceSide())
        && stallCountdown == old(stallCountdown)
    {
      if update.Some? {
        if raceState.targetState != update {
          targetNoncesRequired := true;
          raceState := raceState.(targetState := update);
        }
      }
    }

    /** The source nonces request completes: source nonces are no longer required; on success
        the strategy queues the report and the source is online again; a connection error
        ends the loop with `Source`; any other error leaves the source offline. A successful
        report keeps the client's promise: it holds every nonce generated after the
        `prev_latest_nonce` of the request, up to its end. */
    method SourceNoncesReceived(result: RequestResult<(HeaderId, SourceClientNonces)>) returns (status: LoopStatus)
      requires Valid() && sourceNonces.Some?
      requires result.Ok? ==> result.value.1.newNonces.begin <= sourceNonces.value.prevLatestNonce + 1
      modifies this, strategy
      ensures Valid()
      ensures status == (if result.Err? && result.isConnectionError then Failed(Source) else Running)
      ensures !sourceNoncesRequired && sourceNonces.None? && sourceGenerateProof == old(sourceGenerateProof)
      ensures sourceClientIsOnline == (if status.Running? then result.Ok? else old(sourceClientIsOnline))
      ensures strategy.targetNonce == old(strategy.targetNonce)
      ensures strategy.sourceQueue == (if result.Ok?
        then Enqueue(old(strategy.sourceQueue), old(strategy.BestAtSource()), result.value.0, result.value.1.newNonces)
        else old(strategy.sourceQueue))
      ensures raceState == old(raceState) && TargetSide() == old(TargetSide()) && stallCountdown == old(stallCountdown)
    {
      sourceNonces := None;
      sourceNoncesRequired := false;
      match result
      case Ok((atBlock, nonces)) =>
        strategy.SourceNoncesUpdated(atBlock, nonces);
        sourceClientIsOnline := true;
        status := Running;
      case Err(isConnectionError) =>
        if isConnectionError {
          return Failed(Source);
        }
        sourceClientIsOnline := false;
        status := Running;
    }

    /** The target nonces request completes: target nonces are no longer required; on success
        the strategy and the race state take the target's latest nonce and the target is
        online again; a connection error ends the loop with `Target`; any other error leaves
        the target offline. */
    method TargetNoncesReceived(result: RequestResult<(HeaderId, TargetClientNonces)>) returns (status: LoopStatus)
      requires Valid() && targetNonces.Some?
      modifies this, strategy
      ensures Valid()
      ensures status == (if result.Err? && result.isConnectionError then Failed(Target) else Running)
      ensures !targetNoncesRequired && targetNonces.None? && targetSubmitProof == old(targetSubmitProof)
      ensures targetClientIsOnline == (if status.Running? then result.Ok? else old(targetClientIsOnline))
      ensures TargetUpdate(strategy.sourceQueue, strategy.targetNonce, raceState) ==
        if result.Ok?
        then ApplyTargetNonce(old(strategy.sourceQueue), old(strategy.targetNonce), old(raceState), result.value.1.latestNonce)
        else TargetUpdate(old(strategy.sourceQueue), old(strategy.targetNonce), old(raceState))
      ensures SourceSide() == old(SourceSide()) && stallCountdown == old(stallCountdown)
    {
      targetNonces := None;
      targetNoncesRequired := false;
      match result
      case Ok((_, nonces)) =>
        raceState := strategy.TargetNoncesUpdated(nonces, raceState);
        targetClientIsOnline := true;
        status := Running;
      case Err(isConnectionError) =>
        if isConnectionError {
          return Failed(Target);
        }
        targetClientIsOnline := false;
        status := Running;
    }

    /** Proof generation completes: on success the proof becomes the one to submit and the
        source is online again; a connection error ends the loop with `Source`; any other
        error leaves the source offline. */
    method ProofGenerated(result: RequestResult<Submission>) returns (status: LoopStatus)
      requires Valid() && sourceGenerateProof.Some?
      modifies this
      ensures Valid()
      ensures status == (if result.Err? && result.isConnectionError then Failed(Source) else Running)
      ensures sourceGenerateProof.None? && sourceNonces == old(sourceNonces) && sourceNoncesRequired == old(sourceNoncesRequired)
      ensures sourceClientIsOnline == (if status.Running? then result.Ok? else old(sourceClientIsOnline))
      ensures raceState == if result.Ok? then old(raceState).(noncesToSubmit := Some(result.value)) else old(raceState)
      ensures TargetSide() == old(TargetSide()) && stallCountdown == old(stallCountdown)
    {
      sourceGenerateProof := None;
      match result
      case Ok(submission) =>
        raceState := raceState.(noncesToSubmit := Some(submission));
        sourceClientIsOnline := true;
        status := Running;
      case Err(isConnectionError) =>
        if isConnectionError {
          return Failed(Source);
        }
        sourceClientIsOnline := false;
        status := Running;
    }

    /** Proof submission completes: on success nothing is left to submit, the submitted range
        is remembered until the target confirms it, and the target is online again; a
        connection error ends the loop with `Target`; any other error leaves the target
        offline. */
    method ProofSubmitted(result: RequestResult<NonceRange>) returns (status: LoopStatus)
      requires Valid() && targetSubmitProof.Some?
      modifies this
      ensures Valid()
      ensures status == (if result.Err? && result.isConnectionError then Failed(Target) else Running)
      ensures targetSubmitProof.None? && targetNonces == old(targetNonces) && targetNoncesRequired == old(targetNoncesRequired)
      ensures targetClientIsOnline == (if status.Running? then result.Ok? else old(targetClientIsOnline))
      ensures raceState == if result.Ok?
        then old(raceState).(noncesToSubmit := None, noncesSubmitted := Some(result.value))
        else old(raceState)
      ensures SourceSide() == old(SourceSide()) && stallCountdown == old(stallCountdown)
    {
      targetSubmitProof := None;
      match result
      case Ok(nonces) =>
        raceState := raceState.(noncesToSubmit := None, noncesSubmitted := Some(nonces));
        targetClientIsOnline := true;
        status := Running;
      case Err(isConnectionError) =>
        if isConnectionError {
          return Failed(Target);
        }
        targetClientIsOnline := false;
        status := Running;
    }

    /** The stall rule: once the countdown has run longer than the stall timeout the loop
        ends with `Both`; otherwise the countdown restarts whenever no delivery is in flight
        and the strategy's queue is empty. */
    method CheckStall(now: nat) returns (status: LoopStatus)
      requires Valid()
      modifies this
      ensures Valid()
      ensures status == (if stallTimeout < Elapsed(old(stallCountdown), now) then Failed(Both) else Running)
      ensures status.Failed? ==> unchanged(this)
      ensures status.Running? ==>
        stallCountdown == (if !raceState.DeliveryInFlight() && strategy.sourceQueue == [] then now else old(stallCountdown))
      ensures raceState == old(raceState) && SourceSide() == old(SourceSide()) && TargetSide() == old(TargetSide())
    {
      if stallTimeout < Elapsed(stallCountdown, now) {
        return Failed(Both);
      } else if raceState.noncesToSubmit.None? && raceState.noncesSubmitted.None? && strategy.IsEmpty() {
        stallCountdown := now;
      }
      status := Running;
    }

    /** Source requests: when online, ask for a proof of the selected nonces at the best
        source header the target knows; else, when source nonces are required, ask for them
        at the source's own best header above `best_at_source`; else stay online. */
    method IssueSourceRequest()
      requires Valid()
      modifies this, strategy
      ensures Valid()
      ensures raceState == old(raceState) && stallCountdown == old(stallCountdown) && TargetSide() == old(TargetSide())
      ensures strategy.targetNonce == old(strategy.targetNonce)
      ensures !old(sourceClientIsOnline) ==>
        SourceSide() == old(SourceSide()) && strategy.sourceQueue == old(strategy.sourceQueue)
      ensures old(sourceClientIsOnline) ==>
        var step := Select(old(strategy.sourceQueue), strategy.targetNonce, raceState, AcceptAll);
        && strategy.sourceQueue == step.queue
        && SourceSide() == SourceIssued(old(SourceSide()), step.selection, raceState, strategy.BestAtSource())
    {
      if sourceClientIsOnline {
        sourceClientIsOnline := false;
        var noncesToDeliver := SelectNoncesToDeliver(raceState, strategy);
        if noncesToDeliver.Some? {
          sourceGenerateProof := noncesToDeliver;
        } else if sourceNoncesRequired {
          var atBlock := raceState.sourceState.value.bestSelf;
          sourceNonces := Some(SourceNoncesRequest(atBlock, strategy.BestAtSource()));
        } else {
          sourceClientIsOnline := true;
        }
      }
    }

    /** Target requests: when online, submit the proof waiting to be submitted, if any; and
        when target nonces are required, ask for them at the target's own best header, which
        is the only case in which the target goes offline. */
    method IssueTargetRequest()
      requires Valid()
      modifies this
      ensures Valid()
      ensures raceState == old(raceState) && stallCountdown == old(stallCountdown) && SourceSide() == old(SourceSide())
      ensures !old(targetClientIsOnline) ==> TargetSide() == old(TargetSide())
      ensures old(targetClientIsOnline) ==> TargetSide() == TargetIssued(old(TargetSide()), raceState)
    {
      if targetClientIsOnline {
        targetClientIsOnline := false;
        if raceState.noncesToSubmit.Some? {
          targetSubmitProof := raceState.noncesToSubmit;
        }
        if targetNoncesRequired {
          var atBlock := raceState.targetState.value.bestSelf;
          targetNonces := Some(atBlock);
        } else {
          targetClientIsOnline := true;
        }
      }
    }

    /** The synchronous rest of one loop iteration, at time `now`: the stall rule, then the
        source's requests, then the target's. */
    method Decide(now: nat) returns (status: LoopStatus)
      requires Valid()
      modifies this, strategy
      ensures Valid()
      ensures status == (if stallTimeout < Elapsed(old(stallCountdown), now) then Failed(Both) else Running)
      ensures status.Failed? ==> unchanged(this) && unchanged(strategy)
      ensures raceState == old(raceState) && strategy.targetNonce == old(strategy.targetNonce)
      ensures status.Running? ==>
        stallCountdown == (if !raceState.DeliveryInFlight() && old(strategy.sourceQueue) == [] then now else old(stallCountdown))
      ensures status.Running? && !old(sourceClientIsOnline) ==>
        SourceSide() == old(SourceSide()) && strategy.sourceQueue == old(strategy.sourceQueue)
      ensures status.Running? && old(sourceClientIsOnline) ==>
        var step := Select(old(strategy.sourceQueue), strategy.targetNonce, raceState, AcceptAll);
        && strategy.sourceQueue == step.queue
        && SourceSide() == SourceIssued(old(SourceSide()), step.selection, raceState, strategy.BestAtSource())
      ensures status.Running? && !old(targetClientIsOnline) ==> TargetSide() == old(TargetSide())
      ensures status.Running? && old(targetClientIsOnline) ==> TargetSide() == TargetIssued(old(TargetSide()), raceState)
    {
      status := CheckStall(now);
      if status.Failed? {
        return;
      }
      IssueSourceRequest();
      IssueTargetRequest();
    }
  }
}
