/** The basic nonce delivery strategy (relays/messages-relay/src/message_race_strategy.rs).

    The strategy keeps a FIFO queue of nonce batches, each tagged with the source header
    at which it was observed, and the best nonce known to the target. It selects the
    nonces to deliver when they are more than the target has and the header that
    produced them is known to the target.

    The first part of this module states what each operation does to the queue, as
    functions on values, and proves their properties; class `BasicStrategy` at the end
    is the in-place implementation, proved against those functions. */
module MessageRaceStrategy {
  import opened Wrappers
  import opened RaceTypes

  /** One queued batch: the source header at which the nonces were seen, and the nonces. */
  datatype QueueEntry = QueueEntry(queuedAt: HeaderId, range: NonceRange)

  /** Nonce `k` waits in some queued batch. */
  predicate Queued(q: seq<QueueEntry>, k: nat) {
    exists i :: 0 <= i < |q| && q[i].range.Contains(k)
  }

  /** The queue invariants: every batch holds some nonce and only nonces above the target
      nonce, and batches are strictly increasing and disjoint. */
  predicate ValidQueue(q: seq<QueueEntry>, targetNonce: nat) {
    && (forall i :: 0 <= i < |q| ==> targetNonce < q[i].range.begin <= q[i].range.end)
    && (forall i, j :: 0 <= i < j < |q| ==> q[i].range.end < q[j].range.begin)
  }

  /** No queued nonce is above `best`. */
  predicate Below(q: seq<QueueEntry>, best: nat) {
    forall i :: 0 <= i < |q| ==> q[i].range.end <= best
  }

  /** The first nonce of the front batch of a valid queue is queued. */
  lemma FrontIsQueued(q: seq<QueueEntry>, targetNonce: nat)
    requires q != []
    ensures ValidQueue(q, targetNonce) ==> Queued(q, q[0].range.begin)
  {
    if ValidQueue(q, targetNonce) {
      assert q[0].range.Contains(q[0].range.begin);
    }
  }

  lemma ValidQueueSuffix(q: seq<QueueEntry>, targetNonce: nat, from: nat)
    requires ValidQueue(q, targetNonce) && from <= |q|
    ensures ValidQueue(q[from..], targetNonce)
  {
    var s := q[from..];
    forall i, j | 0 <= i < j < |s| ensures s[i].range.end < s[j].range.begin {
      assert s[i] == q[from + i] && s[j] == q[from + j];
    }
  }

  // ---------------------------------------------------------------------------------
  // source_nonces_updated

  /** A reported range may be empty (nothing new), but a range that reaches above what is
      already known must hold some nonce. */
  predicate ReportFits(newNonces: NonceRange, bestAtSource: nat) {
    bestAtSource < newNonces.end ==> newNonces.NonEmpty()
  }

  /** The queue after a source report: only the reported nonces above `bestAtSource` are
      appended, as one batch tagged with `atBlock`. */
  function Enqueue(q: seq<QueueEntry>, bestAtSource: nat, atBlock: HeaderId, newNonces: NonceRange): (r: seq<QueueEntry>)
    ensures q <= r && |r| <= |q| + 1
    ensures |r| == |q| + 1 <==> bestAtSource < newNonces.end
    ensures |r| == |q| + 1 ==> r[|q|].queuedAt == atBlock && r[|q|].range.end == newNonces.end
  {
    match GreaterThan(newNonces, bestAtSource)
    case None => q
    case Some(added) => q + [QueueEntry(atBlock, added)]
  }

  /** Appending keeps the queue invariants, and the queue then holds exactly the nonces it
      held before plus the reported nonces above `bestAtSource`. */
  lemma EnqueueKeepsQueue(q: seq<QueueEntry>, targetNonce: nat, bestAtSource: nat, atBlock: HeaderId, newNonces: NonceRange)
    requires ValidQueue(q, targetNonce) && Below(q, bestAtSource) && targetNonce <= bestAtSource
    requires ReportFits(newNonces, bestAtSource)
    ensures ValidQueue(Enqueue(q, bestAtSource, atBlock, newNonces), targetNonce)
    ensures Below(Enqueue(q, bestAtSource, atBlock, newNonces), Max(bestAtSource, newNonces.end))
    ensures forall k: nat :: (Queued(Enqueue(q, bestAtSource, atBlock, newNonces), k)
      <==> Queued(q, k) || (newNonces.Contains(k) && bestAtSource < k))
  {
    var e := Enqueue(q, bestAtSource, atBlock, newNonces);
    match GreaterThan(newNonces, bestAtSource)
    case None =>
    case Some(added) =>
      assert e[|q|].range == added;
      forall k: nat ensures Queued(e, k) <==> Queued(q, k) || added.Contains(k) {
        if Queued(e, k) {
          var i :| 0 <= i < |e| && e[i].range.Contains(k);
          if i < |q| { assert q[i] == e[i]; }
        }
        if Queued(q, k) {
          var i :| 0 <= i < |q| && q[i].range.Contains(k);
          assert e[i] == q[i];
        }
        if added.Contains(k) {
          assert e[|q|].range.Contains(k);
        }
      }
  }

  /** A report of nonces that are all known already leaves the queue as it is. */
  lemma EnqueueKnownIsNoop(q: seq<QueueEntry>, bestAtSource: nat, atBlock: HeaderId, newNonces: NonceRange)
    requires newNonces.end <= bestAtSource
    ensures Enqueue(q, bestAtSource, atBlock, newNonces) == q
  {
  }

  // ---------------------------------------------------------------------------------
  // target_nonces_updated

  /** The queue after the target reports `nonce` as delivered: batches at the front that
      start at or below `nonce` are dropped, except that the first one reaching above
      `nonce` is trimmed to its part above `nonce` and stays. */
  function Drain(q: seq<QueueEntry>, nonce: nat): (r: seq<QueueEntry>)
    ensures |r| <= |q|
    ensures r != [] ==> r[|r| - 1].range.end == q[|q| - 1].range.end
    decreases |q|
  {
    if q == [] || nonce < q[0].range.begin then q
    else match GreaterThan(q[0].range, nonce)
      case Some(rest) => [QueueEntry(q[0].queuedAt, rest)] + q[1..]
      case None => Drain(q[1..], nonce)
  }

  /** What draining does, entry by entry, on any queue: a prefix of fully delivered batches
      is removed, the next batch is either untouched (it starts above `nonce`) or trimmed
      to `GreaterThan(_, nonce)` under the same header, and all later batches are untouched. */
  lemma {:induction false} DrainShape(q: seq<QueueEntry>, nonce: nat)
    ensures var d := Drain(q, nonce); var cut := |q| - |d|;
      && |d| <= |q|
      && (forall i :: 0 <= i < cut ==> q[i].range.begin <= nonce && q[i].range.end <= nonce)
      && (forall i :: 0 < i < |d| ==> d[i] == q[cut + i])
      && (d != [] ==>
            || (d[0] == q[cut] && nonce < q[cut].range.begin)
            || (q[cut].range.begin <= nonce && d[0].queuedAt == q[cut].queuedAt
                && GreaterThan(q[cut].range, nonce) == Some(d[0].range)))
    decreases |q|
  {
    if q == [] || nonce < q[0].range.begin {
    } else {
      match GreaterThan(q[0].range, nonce)
      case Some(rest) =>
      case None =>
        DrainShape(q[1..], nonce);
        var d := Drain(q, nonce);
        assert d == Drain(q[1..], nonce);
        forall i | 0 < i < |d| ensures d[i] == q[|q| - |d| + i] {
          assert q[1..][|q| - 1 - |d| + i] == q[|q| - |d| + i];
        }
    }
  }

  /** A valid queue that starts above `nonce` is valid with `nonce` as the target nonce and
      holds only nonces above it. */
  lemma QueueAbove(q: seq<QueueEntry>, targetNonce: nat, nonce: nat)
    requires ValidQueue(q, targetNonce) && q != [] && nonce < q[0].range.begin
    ensures ValidQueue(q, nonce)
    ensures forall k: nat :: Queued(q, k) ==> nonce < k
  {
    forall i | 0 <= i < |q| ensures nonce < q[i].range.begin {
      if 0 < i { assert q[0].range.end < q[i].range.begin; }
    }
    forall k: nat | Queued(q, k) ensures nonce < k {
      var i :| 0 <= i < |q| && q[i].range.Contains(k);
    }
  }

  /** Trimming the front batch to its part above `nonce` keeps the queue valid with `nonce`
      as the target nonce, and keeps exactly the queued nonces above `nonce`. */
  lemma TrimFrontKeepsQueue(q: seq<QueueEntry>, targetNonce: nat, nonce: nat, rest: NonceRange)
    requires ValidQueue(q, targetNonce) && q != [] && q[0].range.begin <= nonce
    requires GreaterThan(q[0].range, nonce) == Some(rest)
    ensures ValidQueue([QueueEntry(q[0].queuedAt, rest)] + q[1..], nonce)
    ensures forall k: nat :: Queued([QueueEntry(q[0].queuedAt, rest)] + q[1..], k) <==> Queued(q, k) && nonce < k
  {
    var d := [QueueEntry(q[0].queuedAt, rest)] + q[1..];
    forall i | 0 <= i < |d| ensures nonce < d[i].range.begin <= d[i].range.end {
      if 0 < i { assert d[i] == q[i] && q[0].range.end < q[i].range.begin; }
    }
    forall i, j | 0 <= i < j < |d| ensures d[i].range.end < d[j].range.begin {
      assert d[j] == q[j];
      if 0 < i { assert d[i] == q[i]; }
    }
    forall k: nat ensures Queued(d, k) <==> Queued(q, k) && nonce < k {
      if Queued(d, k) {
        var i :| 0 <= i < |d| && d[i].range.Contains(k);
        if 0 < i { assert d[i] == q[i]; } else { assert q[0].range.Contains(k); }
      }
      if Queued(q, k) && nonce < k {
        var i :| 0 <= i < |q| && q[i].range.Contains(k);
        if 0 < i { assert d[i] == q[i]; } else { assert d[0].range.Contains(k); }
      }
    }
  }

  /** After draining with `nonce`, the queue keeps its invariants with `nonce` as the target
      nonce, and it holds exactly the nonces above `nonce` that it held before. */
  lemma {:induction false} DrainKeepsQueue(q: seq<QueueEntry>, targetNonce: nat, nonce: nat)
    requires ValidQueue(q, targetNonce) && targetNonce <= nonce
    ensures ValidQueue(Drain(q, nonce), nonce)
    ensures forall k: nat :: Queued(Drain(q, nonce), k) <==> Queued(q, k) && nonce < k
    decreases |q|
  {
    if q == [] {
    } else if nonce < q[0].range.begin {
      QueueAbove(q, targetNonce, nonce);
    } else {
      match GreaterThan(q[0].range, nonce)
      case Some(rest) =>
        TrimFrontKeepsQueue(q, targetNonce, nonce, rest);
      case None =>
        ValidQueueSuffix(q, targetNonce, 1);
        DrainKeepsQueue(q[1..], targetNonce, nonce);
        forall k: nat ensures Queued(q[1..], k) && nonce < k <==> Queued(q, k) && nonce < k {
          if Queued(q, k) && nonce < k {
            var i :| 0 <= i < |q| && q[i].range.Contains(k);
            assert i != 0;
            assert q[1..][i - 1] == q[i];
          }
          if Queued(q[1..], k) {
            var i :| 0 <= i < |q[1..]| && q[1..][i].range.Contains(k);
            assert q[i + 1] == q[1..][i];
          }
        }
    }
  }

  /** Draining twice with the same nonce is the same as draining once. */
  lemma DrainIdempotent(q: seq<QueueEntry>, nonce: nat)
    ensures Drain(Drain(q, nonce), nonce) == Drain(q, nonce)
  {
    DrainShape(q, nonce);
  }

  /** The race state after the target reports `nonce`: a proof waiting to be submitted, and a
      submitted range, is dropped exactly when the target already has all its nonces. */
  function ClearConfirmed(rs: RaceState, nonce: nat): (r: RaceState)
    ensures r.sourceState == rs.sourceState && r.targetState == rs.targetState
    ensures r.noncesToSubmit.None? <==> rs.noncesToSubmit.None? || rs.noncesToSubmit.value.nonces.end <= nonce
    ensures r.noncesToSubmit.Some? ==> r.noncesToSubmit == rs.noncesToSubmit
    ensures r.noncesSubmitted.None? <==> rs.noncesSubmitted.None? || rs.noncesSubmitted.value.end <= nonce
    ensures r.noncesSubmitted.Some? ==> r.noncesSubmitted == rs.noncesSubmitted
  {
    var toSubmit := if rs.noncesToSubmit.Some? && rs.noncesToSubmit.value.nonces.end <= nonce then None else rs.noncesToSubmit;
    var submitted := if rs.noncesSubmitted.Some? && rs.noncesSubmitted.value.end <= nonce then None else rs.noncesSubmitted;
    rs.(noncesToSubmit := toSubmit, noncesSubmitted := submitted)
  }

  /** The strategy's queue and target nonce, and the race state, after a target report. */
  datatype TargetUpdate = TargetUpdate(queue: seq<QueueEntry>, targetNonce: nat, raceState: RaceState)

  /** `target_nonces_updated` on values: a report below the known target nonce is stale and
      changes nothing; otherwise the queue is drained, the in-flight delivery is cleared where
      the target has it all, and the target nonce becomes the reported one. */
  function ApplyTargetNonce(q: seq<QueueEntry>, targetNonce: nat, rs: RaceState, nonce: nat): (u: TargetUpdate)
    ensures targetNonce <= u.targetNonce
    ensures nonce < targetNonce ==> u == TargetUpdate(q, targetNonce, rs)
    ensures u.raceState.sourceState == rs.sourceState && u.raceState.targetState == rs.targetState
  {
    if nonce < targetNonce then TargetUpdate(q, targetNonce, rs)
    else TargetUpdate(Drain(q, nonce), nonce, ClearConfirmed(rs, nonce))
  }

  /** A target report keeps the queue invariants; afterwards the queue holds exactly the
      nonces above the new target nonce that it held before. */
  lemma ApplyTargetNonceKeepsQueue(q: seq<QueueEntry>, targetNonce: nat, rs: RaceState, nonce: nat)
    requires ValidQueue(q, targetNonce)
    ensures var u := ApplyTargetNonce(q, targetNonce, rs, nonce);
      && ValidQueue(u.queue, u.targetNonce)
      && forall k: nat :: Queued(u.queue, k) <==> Queued(q, k) && u.targetNonce < k
  {
    if targetNonce <= nonce {
      DrainKeepsQueue(q, targetNonce, nonce);
    } else {
      forall k: nat | Queued(q, k) ensures targetNonce < k {
        var i :| 0 <= i < |q| && q[i].range.Contains(k);
      }
    }
  }

  /** `best_at_source` on values: the larger of the target nonce and the end of the last
      queued batch. */
  function BestAt(q: seq<QueueEntry>, targetNonce: nat): nat {
    Max(if q == [] then targetNonce else q[|q| - 1].range.end, targetNonce)
  }

  /** A target report never lowers `best_at_source`: draining keeps the end of the last
      batch, and a queue drained empty held nothing above the new target nonce. */
  lemma ApplyTargetNonceKeepsBest(q: seq<QueueEntry>, targetNonce: nat, rs: RaceState, nonce: nat)
    ensures var u := ApplyTargetNonce(q, targetNonce, rs, nonce);
      BestAt(q, targetNonce) <= BestAt(u.queue, u.targetNonce)
  {
    if targetNonce <= nonce && q != [] && Drain(q, nonce) == [] {
      DrainShape(q, nonce);
    }
  }

  /** Reporting the same target nonce twice changes nothing the second time. */
  lemma TargetUpdateIdempotent(q: seq<QueueEntry>, targetNonce: nat, rs: RaceState, nonce: nat)
    ensures var u := ApplyTargetNonce(q, targetNonce, rs, nonce);
      ApplyTargetNonce(u.queue, u.targetNonce, u.raceState, nonce) == u
  {
    if targetNonce <= nonce {
      DrainIdempotent(q, nonce);
    }
  }

  // ---------------------------------------------------------------------------------
  // select_nonces_to_deliver_with_selector

  /** What a selector must return when it holds back part of `range`: a non-empty suffix of it. */
  predicate SelectorContract(range: NonceRange, requeued: NonceRange) {
    requeued.begin <= requeued.end && range.begin <= requeued.begin && requeued.end == range.end
  }

  /** The selector never breaks its contract. */
  ghost predicate WellBehaved(selector: NonceRange -> Option<NonceRange>) {
    forall range :: selector(range).Some? ==> SelectorContract(range, selector(range).value)
  }

  /** The selector of `select_nonces_to_deliver`: deliver every range whole. */
  function AcceptAll(range: NonceRange): (requeued: Option<NonceRange>)
    ensures requeued.None?
  {
    None
  }

  /** The outcome of one scan of the queue: the end of the nonces to deliver, if any, the
      queue left behind, and whether the selector broke its contract (a panic). */
  datatype ScanResult = ScanResult(noncesEnd: Option<nat>, queue: seq<QueueEntry>, panicked: bool)

  /** The scanning loop: batches are taken from the front while their header is known to
      the target (number at most `bestPeer`) and the selector lets them through whole. The
      first batch held back (whole, or its suffix chosen by the selector) goes back to the
      front and stops the scan. */
  function Scan(q: seq<QueueEntry>, bestPeer: nat, selector: NonceRange -> Option<NonceRange>, noncesEnd: Option<nat>): (r: ScanResult)
    ensures |r.queue| <= |q|
    ensures r.panicked ==> |r.queue| < |q|
    decreases |q|
  {
    if q == [] then ScanResult(noncesEnd, q, false)
    else
      var entry := q[0];
      var requeue := if bestPeer < entry.queuedAt.number then Some(entry.range) else selector(entry.range);
      match requeue
      case None => Scan(q[1..], bestPeer, selector, Some(entry.range.end))
      case Some(r) =>
        if !SelectorContract(entry.range, r) then ScanResult(noncesEnd, q[1..], true)
        else ScanResult(if r.begin != entry.range.begin then Some(r.begin - 1) else noncesEnd,
                        [QueueEntry(entry.queuedAt, r)] + q[1..], false)
  }

  /** Nonce `k` is queued in a batch whose header is known to the target. */
  predicate FinalizedAt(q: seq<QueueEntry>, bestPeer: nat, k: nat) {
    exists i :: 0 <= i < |q| && q[i].range.Contains(k) && q[i].queuedAt.number <= bestPeer
  }

  lemma QueuedCons(q: seq<QueueEntry>, k: nat)
    requires q != []
    ensures Queued(q, k) <==> q[0].range.Contains(k) || Queued(q[1..], k)
  {
    if Queued(q, k) {
      var i :| 0 <= i < |q| && q[i].range.Contains(k);
      if 0 < i { assert q[1..][i - 1] == q[i]; }
    }
    if Queued(q[1..], k) {
      var i :| 0 <= i < |q[1..]| && q[1..][i].range.Contains(k);
      assert q[i + 1] == q[1..][i];
    }
  }

  lemma FinalizedCons(q: seq<QueueEntry>, bestPeer: nat, k: nat)
    requires q != []
    ensures FinalizedAt(q, bestPeer, k) <==>
      (q[0].range.Contains(k) && q[0].queuedAt.number <= bestPeer) || FinalizedAt(q[1..], bestPeer, k)
  {
    if FinalizedAt(q, bestPeer, k) {
      var i :| 0 <= i < |q| && q[i].range.Contains(k) && q[i].queuedAt.number <= bestPeer;
      if 0 < i { assert q[1..][i - 1] == q[i]; }
    }
    if FinalizedAt(q[1..], bestPeer, k) {
      var i :| 0 <= i < |q[1..]| && q[1..][i].range.Contains(k) && q[1..][i].queuedAt.number <= bestPeer;
      assert q[i + 1] == q[1..][i];
    }
  }

  /** In a valid queue every queued nonce is at or above the front batch's first nonce. */
  lemma QueuedFromFront(q: seq<QueueEntry>, targetNonce: nat, k: nat)
    requires ValidQueue(q, targetNonce) && Queued(q, k)
    ensures q != [] && q[0].range.begin <= k
  {
    var i :| 0 <= i < |q| && q[i].range.Contains(k);
    if 0 < i { assert q[0].range.end < q[i].range.begin; }
  }

  /** Putting a suffix `r` of the front batch back in its place keeps the queue invariants,
      and removes exactly the front batch's nonces below `r`. */
  lemma RequeueKeepsQueue(q: seq<QueueEntry>, targetNonce: nat, r: NonceRange)
    requires ValidQueue(q, targetNonce) && q != [] && SelectorContract(q[0].range, r)
    ensures ValidQueue([QueueEntry(q[0].queuedAt, r)] + q[1..], targetNonce)
    ensures forall k: nat :: Queued([QueueEntry(q[0].queuedAt, r)] + q[1..], k) <==> Queued(q, k) && r.begin <= k
  {
    var d := [QueueEntry(q[0].queuedAt, r)] + q[1..];
    assert d[1..] == q[1..];
    forall i | 0 <= i < |d| ensures targetNonce < d[i].range.begin <= d[i].range.end {
      if 0 < i { assert d[i] == q[i]; }
    }
    forall i, j | 0 <= i < j < |d| ensures d[i].range.end < d[j].range.begin {
      assert d[j] == q[j];
      if 0 < i { assert d[i] == q[i]; }
    }
    forall k: nat ensures Queued(d, k) <==> Queued(q, k) && r.begin <= k {
      QueuedCons(d, k);
      QueuedCons(q, k);
      if Queued(q[1..], k) {
        var i :| 0 <= i < |q[1..]| && q[1..][i].range.Contains(k);
        assert q[1..][i] == q[i + 1];
        assert q[0].range.end < q[i + 1].range.begin;
      }
    }
  }

  /** A scan keeps the queue invariants and never ends at or below the target nonce. */
  lemma {:induction false} ScanKeepsQueue(q: seq<QueueEntry>, targetNonce: nat, bestPeer: nat,
                                          selector: NonceRange -> Option<NonceRange>, noncesEnd: Option<nat>)
    requires ValidQueue(q, targetNonce)
    requires noncesEnd.Some? ==> targetNonce < noncesEnd.value
    ensures ValidQueue(Scan(q, bestPeer, selector, noncesEnd).queue, targetNonce)
    ensures Scan(q, bestPeer, selector, noncesEnd).noncesEnd.Some? ==> targetNonce < Scan(q, bestPeer, selector, noncesEnd).noncesEnd.value
    decreases |q|
  {
    if q != [] {
      ValidQueueSuffix(q, targetNonce, 1);
      var entry := q[0];
      var requeue := if bestPeer < entry.queuedAt.number then Some(entry.range) else selector(entry.range);
      match requeue
      case None =>
        ScanKeepsQueue(q[1..], targetNonce, bestPeer, selector, Some(entry.range.end));
      case Some(r) =>
        if SelectorContract(entry.range, r) {
          RequeueKeepsQueue(q, targetNonce, r);
        }
    }
  }

  /** What a scan that does not panic takes, on a valid queue whose nonces are all above the
      running end: the end only grows, and when it moves it ends on a queued nonce; every
      queued nonce up to the end leaves the queue and every other one stays; a scan that
      takes nothing leaves the queue as it was. */
  lemma {:induction false} ScanTakes(q: seq<QueueEntry>, targetNonce: nat, bestPeer: nat,
                                     selector: NonceRange -> Option<NonceRange>, noncesEnd: Option<nat>)
    requires ValidQueue(q, targetNonce)
    requires noncesEnd.Some? ==> forall i :: 0 <= i < |q| ==> noncesEnd.value < q[i].range.begin
    ensures var s := Scan(q, bestPeer, selector, noncesEnd);
      !s.panicked ==>
        && (noncesEnd.Some? ==> s.noncesEnd.Some? && noncesEnd.value <= s.noncesEnd.value)
        && (s.noncesEnd != noncesEnd ==> s.noncesEnd.Some? && Queued(q, s.noncesEnd.value))
        && (s.noncesEnd == noncesEnd ==> s.queue == q)
        && (forall k: nat :: Queued(s.queue, k) <==> Queued(q, k) && (s.noncesEnd.None? || s.noncesEnd.value < k))
    decreases |q|
  {
    if q == [] {
      return;
    }
    var s := Scan(q, bestPeer, selector, noncesEnd);
    var entry := q[0];
    var requeue := if bestPeer < entry.queuedAt.number then Some(entry.range) else selector(entry.range);
    match requeue
    case None =>
      ValidQueueSuffix(q, targetNonce, 1);
      forall i | 0 <= i < |q[1..]| ensures entry.range.end < q[1..][i].range.begin {
        assert q[1..][i] == q[i + 1];
      }
      ScanTakes(q[1..], targetNonce, bestPeer, selector, Some(entry.range.end));
      assert s == Scan(q[1..], bestPeer, selector, Some(entry.range.end));
      if !s.panicked {
        var e := s.noncesEnd.value;
        QueuedCons(q, e);
        if e == entry.range.end {
          assert entry.range.Contains(e);
        }
        forall k: nat ensures Queued(s.queue, k) <==> Queued(q, k) && e < k {
          QueuedCons(q, k);
        }
      }
    case Some(r) =>
      if SelectorContract(entry.range, r) {
        RequeueKeepsQueue(q, targetNonce, r);
        if r.begin != entry.range.begin {
          assert entry.range.Contains(r.begin - 1);
          QueuedCons(q, r.begin - 1);
        } else {
          assert [QueueEntry(entry.queuedAt, r)] + q[1..] == q;
          if noncesEnd.Some? {
            forall k: nat | Queued(q, k) ensures noncesEnd.value < k {
              QueuedFromFront(q, targetNonce, k);
            }
          }
        }
      }
  }

  /** A scan that does not panic takes nonces only from batches whose header the target knows. */
  lemma {:induction false} ScanTakesFinalized(q: seq<QueueEntry>, targetNonce: nat, bestPeer: nat,
                                              selector: NonceRange -> Option<NonceRange>, noncesEnd: Option<nat>)
    requires ValidQueue(q, targetNonce)
    ensures var s := Scan(q, bestPeer, selector, noncesEnd);
      !s.panicked ==> forall k: nat :: Queued(q, k) && !Queued(s.queue, k) ==> FinalizedAt(q, bestPeer, k)
    decreases |q|
  {
    if q == [] {
      return;
    }
    var s := Scan(q, bestPeer, selector, noncesEnd);
    var entry := q[0];
    var requeue := if bestPeer < entry.queuedAt.number then Some(entry.range) else selector(entry.range);
    match requeue
    case None =>
      ValidQueueSuffix(q, targetNonce, 1);
      ScanTakesFinalized(q[1..], targetNonce, bestPeer, selector, Some(entry.range.end));
      assert s == Scan(q[1..], bestPeer, selector, Some(entry.range.end));
      forall k: nat | !s.panicked && Queued(q, k) && !Queued(s.queue, k) ensures FinalizedAt(q, bestPeer, k) {
        QueuedCons(q, k);
        FinalizedCons(q, bestPeer, k);
      }
    case Some(r) =>
      if SelectorContract(entry.range, r) {
        RequeueKeepsQueue(q, targetNonce, r);
        forall k: nat | Queued(q, k) && !Queued(s.queue, k) ensures FinalizedAt(q, bestPeer, k) {
          QueuedFromFront(q, targetNonce, k);
          QueuedCons(q, k);
          FinalizedCons(q, bestPeer, k);
          if Queued(q[1..], k) {
            var i :| 0 <= i < |q[1..]| && q[1..][i].range.Contains(k);
            assert q[1..][i] == q[i + 1];
            assert q[0].range.end < q[i + 1].range.begin;
          }
        }
      }
  }

  /** One selection step: what is selected and the queue left behind. */
  datatype Selection = NoSelection | Selected(nonces: NonceRange) | SelectorBroken
  datatype SelectionStep = SelectionStep(selection: Selection, queue: seq<QueueEntry>)

  /** `select_nonces_to_deliver_with_selector` on values: nothing is selected while a
      delivery is in flight or the target's state is unknown; otherwise the queue is scanned
      against the best source header known to the target, and the nonces from
      `targetNonce + 1` to the end of the scan are selected. */
  function Select(q: seq<QueueEntry>, targetNonce: nat, rs: RaceState, selector: NonceRange -> Option<NonceRange>): (r: SelectionStep)
    ensures rs.DeliveryInFlight() || rs.targetState.None? ==> r == SelectionStep(NoSelection, q)
  {
    if rs.noncesToSubmit.Some? || rs.noncesSubmitted.Some? || rs.targetState.None? then SelectionStep(NoSelection, q)
    else
      var s := Scan(q, rs.targetState.value.bestPeer.number, selector, None);
      if s.panicked then SelectionStep(SelectorBroken, s.queue)
      else match s.noncesEnd
        case None => SelectionStep(NoSelection, s.queue)
        case Some(e) => SelectionStep(Selected(NonceRange(targetNonce + 1, e)), s.queue)
  }

  /** Selection on a valid queue: a selected range starts right after the target nonce and
      holds at least one nonce; the queue keeps its invariants and loses exactly the queued
      nonces of the selected range, all of them from batches whose header the target
      knows; when nothing is selected the queue is unchanged. */
  lemma SelectSound(q: seq<QueueEntry>, targetNonce: nat, rs: RaceState, selector: NonceRange -> Option<NonceRange>)
    requires ValidQueue(q, targetNonce)
    ensures var r := Select(q, targetNonce, rs, selector);
      && ValidQueue(r.queue, targetNonce)
      && (r.selection.Selected? ==> r.selection.nonces.begin == targetNonce + 1 <= r.selection.nonces.end)
      && (r.selection.Selected? ==> Queued(q, r.selection.nonces.end))
      && (r.selection == NoSelection ==> r.queue == q)
      && (r.selection != SelectorBroken ==> forall k: nat ::
            Queued(r.queue, k) <==> Queued(q, k) && !(r.selection.Selected? && r.selection.nonces.Contains(k)))
      && (r.selection.Selected? ==> forall k: nat ::
            Queued(q, k) && r.selection.nonces.Contains(k) ==> FinalizedAt(q, rs.targetState.value.bestPeer.number, k))
  {
    if rs.noncesToSubmit.Some? || rs.noncesSubmitted.Some? || rs.targetState.None? {
    } else {
      var bestPeer := rs.targetState.value.bestPeer.number;
      ScanKeepsQueue(q, targetNonce, bestPeer, selector, None);
      ScanTakes(q, targetNonce, bestPeer, selector, None);
      ScanTakesFinalized(q, targetNonce, bestPeer, selector, None);
      var s := Scan(q, bestPeer, selector, None);
      var r := Select(q, targetNonce, rs, selector);
      if !s.panicked && s.noncesEnd.Some? {
        forall k: nat | Queued(q, k) ensures targetNonce < k {
          var i :| 0 <= i < |q| && q[i].range.Contains(k);
        }
        forall k: nat | Queued(q, k) && r.selection.nonces.Contains(k) ensures FinalizedAt(q, bestPeer, k) {
          assert !Queued(s.queue, k);
        }
      }
    }
  }

  /** A selector that keeps its contract never makes selection panic on a valid queue; the
      batches held back because the target does not know their header keep it too. */
  lemma {:induction false} WellBehavedNeverPanics(q: seq<QueueEntry>, targetNonce: nat, bestPeer: nat,
                                                  selector: NonceRange -> Option<NonceRange>, noncesEnd: Option<nat>)
    requires ValidQueue(q, targetNonce) && WellBehaved(selector)
    ensures !Scan(q, bestPeer, selector, noncesEnd).panicked
    decreases |q|
  {
    if q != [] {
      assert q[0].range.NonEmpty();
      if bestPeer >= q[0].queuedAt.number && selector(q[0].range).None? {
        ValidQueueSuffix(q, targetNonce, 1);
        WellBehavedNeverPanics(q[1..], targetNonce, bestPeer, selector, Some(q[0].range.end));
      }
    }
  }

  /** The scan lets batch `e` through whole: its header is known to the target and the
      selector holds nothing of it back. */
  predicate LetThrough(e: QueueEntry, bestPeer: nat, selector: NonceRange -> Option<NonceRange>) {
    e.queuedAt.number <= bestPeer && selector(e.range).None?
  }

  /** The scan lets the first `n` batches through whole and then shows batch `n`, whose
      header the target knows, to a selector that breaks its contract on it. */
  predicate BreaksAt(q: seq<QueueEntry>, bestPeer: nat, selector: NonceRange -> Option<NonceRange>, n: nat) {
    && n < |q|
    && (forall i :: 0 <= i < n ==> LetThrough(q[i], bestPeer, selector))
    && q[n].queuedAt.number <= bestPeer
    && selector(q[n].range).Some?
    && !SelectorContract(q[n].range, selector(q[n].range).value)
  }

  /** A selector that breaks its contract on a batch the scan reaches makes the scan panic. */
  lemma {:induction false} ScanBreaks(q: seq<QueueEntry>, bestPeer: nat, selector: NonceRange -> Option<NonceRange>,
                                      noncesEnd: Option<nat>, n: nat)
    requires BreaksAt(q, bestPeer, selector, n)
    ensures Scan(q, bestPeer, selector, noncesEnd).panicked
    decreases n
  {
    if n > 0 {
      var tail := q[1..];
      forall i | 0 <= i < n - 1 ensures LetThrough(tail[i], bestPeer, selector) {
        assert tail[i] == q[i + 1];
      }
      assert tail[n - 1] == q[n];
      ScanBreaks(tail, bestPeer, selector, Some(q[0].range.end), n - 1);
    }
  }

  /** On a valid queue the scan panics exactly when the selector breaks its contract on a
      batch the scan reaches: batches held back for an unknown header never panic. */
  lemma {:induction false} ScanPanicsIff(q: seq<QueueEntry>, targetNonce: nat, bestPeer: nat,
                                         selector: NonceRange -> Option<NonceRange>, noncesEnd: Option<nat>)
    requires ValidQueue(q, targetNonce)
    ensures Scan(q, bestPeer, selector, noncesEnd).panicked <==> exists n: nat :: BreaksAt(q, bestPeer, selector, n)
    decreases |q|
  {
    if n: nat :| BreaksAt(q, bestPeer, selector, n) {
      ScanBreaks(q, bestPeer, selector, noncesEnd, n);
    }
    if q != [] {
      if LetThrough(q[0], bestPeer, selector) {
        var tail := q[1..];
        ValidQueueSuffix(q, targetNonce, 1);
        ScanPanicsIff(tail, targetNonce, bestPeer, selector, Some(q[0].range.end));
        if m: nat :| BreaksAt(tail, bestPeer, selector, m) {
          forall i | 0 <= i < m + 1 ensures LetThrough(q[i], bestPeer, selector) {
            if i > 0 {
              assert q[i] == tail[i - 1];
            }
          }
          assert q[m + 1] == tail[m];
          assert BreaksAt(q, bestPeer, selector, m + 1);
        }
      } else if bestPeer < q[0].queuedAt.number {
        assert SelectorContract(q[0].range, q[0].range);
      } else {
        assert Scan(q, bestPeer, selector, noncesEnd).panicked ==> BreaksAt(q, bestPeer, selector, 0);
      }
    }
  }

  /** A selector that breaks its contract on a batch the scan reaches makes selection panic;
      on a valid queue this is the only way selection panics. */
  lemma BrokenSelectorPanics(q: seq<QueueEntry>, targetNonce: nat, rs: RaceState, selector: NonceRange -> Option<NonceRange>, n: nat)
    requires !rs.DeliveryInFlight() && rs.targetState.Some?
    requires BreaksAt(q, rs.targetState.value.bestPeer.number, selector, n)
    ensures Select(q, targetNonce, rs, selector).selection == SelectorBroken
  {
    ScanBreaks(q, rs.targetState.value.bestPeer.number, selector, None, n);
  }

  /** On a valid queue, selection fails exactly when nothing is in flight, the target is
      known, and the selector breaks its contract on a batch the scan reaches. */
  lemma SelectPanicsIff(q: seq<QueueEntry>, targetNonce: nat, rs: RaceState, selector: NonceRange -> Option<NonceRange>)
    requires ValidQueue(q, targetNonce)
    ensures Select(q, targetNonce, rs, selector).selection == SelectorBroken <==>
      && !rs.DeliveryInFlight()
      && rs.targetState.Some?
      && exists n: nat :: BreaksAt(q, rs.targetState.value.bestPeer.number, selector, n)
  {
    if !rs.DeliveryInFlight() && rs.targetState.Some? {
      ScanPanicsIff(q, targetNonce, rs.targetState.value.bestPeer.number, selector, None);
    }
  }

  /** A scan that lets `n` batches through whole and then meets a (non-empty) batch whose
      header the target does not know stops there: it ends where the batches let through
      end, and the unknown batch goes back to the front unchanged. */
  lemma {:induction false} ScanStopsAtUnknownHeader(q: seq<QueueEntry>, bestPeer: nat, selector: NonceRange -> Option<NonceRange>,
                                                    noncesEnd: Option<nat>, n: nat)
    requires n < |q|
    requires forall i :: 0 <= i < n ==> LetThrough(q[i], bestPeer, selector)
    requires bestPeer < q[n].queuedAt.number && q[n].range.NonEmpty()
    ensures Scan(q, bestPeer, selector, noncesEnd) ==
      ScanResult(if n == 0 then noncesEnd else Some(q[n - 1].range.end), q[n..], false)
    decreases n
  {
    if n == 0 {
      assert SelectorContract(q[0].range, q[0].range);
      assert [QueueEntry(q[0].queuedAt, q[0].range)] + q[1..] == q;
    } else {
      var tail := q[1..];
      forall i | 0 <= i < n - 1 ensures LetThrough(tail[i], bestPeer, selector) {
        assert tail[i] == q[i + 1];
      }
      assert tail[n - 1] == q[n];
      ScanStopsAtUnknownHeader(tail, bestPeer, selector, Some(q[0].range.end), n - 1);
      assert tail[n - 1..] == q[n..];
      if n > 1 {
        assert tail[n - 2] == q[n - 1];
      }
    }
  }

  /** Selection with any selector that lets `n` batches through whole and then meets a
      batch whose header the target does not know selects up to the end of those `n`
      batches (nothing when `n` is 0) and leaves the queue from the unknown batch on
      unchanged. */
  lemma SelectStopsAtUnknownHeader(q: seq<QueueEntry>, targetNonce: nat, rs: RaceState,
                                   selector: NonceRange -> Option<NonceRange>, n: nat)
    requires !rs.DeliveryInFlight() && rs.targetState.Some?
    requires n < |q|
    requires forall i :: 0 <= i < n ==> LetThrough(q[i], rs.targetState.value.bestPeer.number, selector)
    requires rs.targetState.value.bestPeer.number < q[n].queuedAt.number && q[n].range.NonEmpty()
    ensures Select(q, targetNonce, rs, selector) ==
      if n == 0 then SelectionStep(NoSelection, q)
      else SelectionStep(Selected(NonceRange(targetNonce + 1, q[n - 1].range.end)), q[n..])
  {
    ScanStopsAtUnknownHeader(q, rs.targetState.value.bestPeer.number, selector, None, n);
  }

  /** A scan that lets `n` known batches through whole and then meets a known batch of
      which the selector holds back the suffix `r` ends just before `r` (or, when the whole
      batch is held back, where the batches let through end), and leaves `r` at the front
      of the queue in front of the batches not yet seen. */
  lemma {:induction false} ScanHoldsBack(q: seq<QueueEntry>, bestPeer: nat, selector: NonceRange -> Option<NonceRange>,
                                         noncesEnd: Option<nat>, n: nat, r: NonceRange)
    requires n < |q|
    requires forall i :: 0 <= i < n ==> q[i].queuedAt.number <= bestPeer && selector(q[i].range).None?
    requires q[n].queuedAt.number <= bestPeer && selector(q[n].range) == Some(r) && SelectorContract(q[n].range, r)
    ensures Scan(q, bestPeer, selector, noncesEnd) ==
      ScanResult(if r.begin != q[n].range.begin then Some(r.begin - 1) else if n == 0 then noncesEnd else Some(q[n - 1].range.end),
                 [QueueEntry(q[n].queuedAt, r)] + q[n + 1..], false)
    decreases n
  {
    if n > 0 {
      var tail := q[1..];
      forall i | 0 <= i < n - 1 ensures tail[i].queuedAt.number <= bestPeer && selector(tail[i].range).None? {
        assert tail[i] == q[i + 1];
      }
      assert tail[n - 1] == q[n];
      ScanHoldsBack(tail, bestPeer, selector, Some(q[0].range.end), n - 1, r);
      assert tail[n..] == q[n + 1..];
      if n > 1 {
        assert tail[n - 2] == q[n - 1];
      }
    }
  }

  /** Selection in which the selector holds back the suffix `r` of the first batch it does
      not let through whole selects up to `r.begin - 1` and requeues `r`. */
  lemma SelectHoldsBack(q: seq<QueueEntry>, targetNonce: nat, rs: RaceState, selector: NonceRange -> Option<NonceRange>,
                        n: nat, r: NonceRange)
    requires !rs.DeliveryInFlight() && rs.targetState.Some?
    requires n < |q|
    requires forall i :: 0 <= i < n ==> q[i].queuedAt.number <= rs.targetState.value.bestPeer.number && selector(q[i].range).None?
    requires q[n].queuedAt.number <= rs.targetState.value.bestPeer.number
    requires selector(q[n].range) == Some(r) && SelectorContract(q[n].range, r) && q[n].range.begin < r.begin
    ensures Select(q, targetNonce, rs, selector) ==
      SelectionStep(Selected(NonceRange(targetNonce + 1, r.begin - 1)), [QueueEntry(q[n].queuedAt, r)] + q[n + 1..])
  {
    ScanHoldsBack(q, rs.targetState.value.bestPeer.number, selector, None, n, r);
  }

  /** The number of batches at the front of the queue whose header the target knows. */
  function FinalizedPrefix(q: seq<QueueEntry>, bestPeer: nat): (n: nat)
    ensures n <= |q|
    ensures forall i :: 0 <= i < n ==> q[i].queuedAt.number <= bestPeer
    ensures n < |q| ==> bestPeer < q[n].queuedAt.number
    decreases |q|
  {
    if q == [] || bestPeer < q[0].queuedAt.number then 0
    else
      var n := FinalizedPrefix(q[1..], bestPeer);
      assert forall i :: 0 < i <= n ==> q[i] == q[1..][i - 1];
      1 + n
  }

  /** With the selector that accepts every range, the scan takes exactly the batches at the
      front whose header the target knows, and ends where the last of them ends. */
  lemma {:induction false} AcceptAllScan(q: seq<QueueEntry>, targetNonce: nat, bestPeer: nat, noncesEnd: Option<nat>)
    requires ValidQueue(q, targetNonce)
    ensures var n := FinalizedPrefix(q, bestPeer);
      Scan(q, bestPeer, AcceptAll, noncesEnd) == ScanResult(if n == 0 then noncesEnd else Some(q[n - 1].range.end), q[n..], false)
    decreases |q|
  {
    if q == [] {
    } else if q[0].queuedAt.number <= bestPeer {
      assert AcceptAll(q[0].range) == None;
      assert Scan(q, bestPeer, AcceptAll, noncesEnd) == Scan(q[1..], bestPeer, AcceptAll, Some(q[0].range.end));
      ValidQueueSuffix(q, targetNonce, 1);
      AcceptAllScan(q[1..], targetNonce, bestPeer, Some(q[0].range.end));
      var n := FinalizedPrefix(q[1..], bestPeer);
      assert FinalizedPrefix(q, bestPeer) == 1 + n;
      assert q[1..][n..] == q[1 + n..];
      if n > 0 { assert q[1..][n - 1] == q[n]; }
    } else {
      assert FinalizedPrefix(q, bestPeer) == 0;
      assert SelectorContract(q[0].range, q[0].range);
      assert [QueueEntry(q[0].queuedAt, q[0].range)] + q[1..] == q;
    }
  }

  /** `select_nonces_to_deliver` on a valid queue with nothing in flight and a known target:
      it never panics; it selects `targetNonce + 1 ..= end` of the last front batch whose
      header the target knows, and removes those batches; with no such batch it selects
      nothing and leaves the queue unchanged. */
  lemma AcceptAllSelect(q: seq<QueueEntry>, targetNonce: nat, rs: RaceState)
    requires ValidQueue(q, targetNonce)
    requires !rs.DeliveryInFlight() && rs.targetState.Some?
    ensures var n := FinalizedPrefix(q, rs.targetState.value.bestPeer.number);
      Select(q, targetNonce, rs, AcceptAll) ==
        if n == 0 then SelectionStep(NoSelection, q)
        else SelectionStep(Selected(NonceRange(targetNonce + 1, q[n - 1].range.end)), q[n..])
  {
    AcceptAllScan(q, targetNonce, rs.targetState.value.bestPeer.number, None);
  }

  /** The selector that accepts every range keeps the selector contract. */
  lemma AcceptAllWellBehaved()
    ensures WellBehaved(AcceptAll)
  {
  }

  // ---------------------------------------------------------------------------------
  // The strategy object

  /** `BasicStrategy`: the queue of batches not yet delivered and the best nonce known to
      the target. */
  class BasicStrategy {
    var sourceQueue: seq<QueueEntry>
    var targetNonce: nat

    ghost predicate Valid()
      reads this
    {
      ValidQueue(sourceQueue, targetNonce)
    }

    /** `BasicStrategy::new`. */
    constructor ()
      ensures Valid()
      ensures sourceQueue == [] && targetNonce == 0
    {
      sourceQueue := [];
      targetNonce := 0;
    }

    /** `is_empty`: nothing waits in the queue. */
    function IsEmpty(): (b: bool)
      reads this
      ensures b <==> sourceQueue == []
      ensures Valid() ==> (b <==> forall k: nat :: !Queued(sourceQueue, k))
    {
      if sourceQueue == [] then true
      else FrontIsQueued(sourceQueue, targetNonce); false
    }

    /** `best_at_source`: the best nonce known at the source, which is the larger of the
        target nonce and the last queued nonce. */
    function BestAtSource(): (r: nat)
      reads this
      ensures targetNonce <= r
      ensures r == targetNonce || (sourceQueue != [] && r == sourceQueue[|sourceQueue| - 1].range.end)
      ensures Valid() ==> Below(sourceQueue, r)
    {
      BestAt(sourceQueue, targetNonce)
    }

    /** `best_at_target`: the best nonce known at the target, never above the source's. */
    function BestAtTarget(): (r: nat)
      reads this
      ensures r <= BestAtSource()
      ensures r == targetNonce
    {
      targetNonce
    }

    /** `source_nonces_updated`: queue the reported nonces above `best_at_source` as one
        batch observed at `atBlock`. */
    method SourceNoncesUpdated(atBlock: HeaderId, nonces: SourceClientNonces)
      requires Valid()
      requires ReportFits(nonces.newNonces, BestAtSource())
      modifies this
      ensures Valid()
      ensures targetNonce == old(targetNonce)
      ensures sourceQueue == Enqueue(old(sourceQueue), old(BestAtSource()), atBlock, nonces.newNonces)
      ensures old(BestAtSource()) <= BestAtSource()
    {
      var prevBestAtSource := BestAtSource();
      EnqueueKeepsQueue(sourceQueue, targetNonce, prevBestAtSource, atBlock, nonces.newNonces);
      match GreaterThan(nonces.newNonces, prevBestAtSource)
      case Some(added) =>
        sourceQueue := sourceQueue + [QueueEntry(atBlock, added)];
      case None =>
    }

    /** `target_nonces_updated`: a report below the known target nonce is ignored; otherwise
        the delivered nonces leave the queue, an in-flight delivery that is fully delivered
        is dropped from the race state, and the target nonce moves up to the report. */
    method TargetNoncesUpdated(nonces: TargetClientNonces, raceState: RaceState) returns (raceState': RaceState)
      requires Valid()
      modifies this
      ensures Valid()
      ensures TargetUpdate(sourceQueue, targetNonce, raceState') ==
        ApplyTargetNonce(old(sourceQueue), old(targetNonce), raceState, nonces.latestNonce)
      ensures old(BestAtSource()) <= BestAtSource()
    {
      ghost var q0, t0 := sourceQueue, targetNonce;
      var nonce := nonces.latestNonce;
      if nonce < targetNonce {
        return raceState;
      }
      DrainKeepsQueue(sourceQueue, targetNonce, nonce);
      while sourceQueue != [] && sourceQueue[0].range.begin <= nonce
        invariant Drain(sourceQueue, nonce) == Drain(old(sourceQueue), nonce)
        decreases |sourceQueue|
      {
        var front := sourceQueue[0];
        sourceQueue := sourceQueue[1..];
        match GreaterThan(front.range, nonce)
        case Some(subrange) =>
          sourceQueue := [QueueEntry(front.queuedAt, subrange)] + sourceQueue;
          break;
        case None =>
      }
      raceState' := raceState;
      if raceState'.noncesToSubmit.Some? && raceState'.noncesToSubmit.value.nonces.end <= nonce {
        raceState' := raceState'.(noncesToSubmit := None);
      }
      if raceState'.noncesSubmitted.Some? && raceState'.noncesSubmitted.value.end <= nonce {
        raceState' := raceState'.(noncesSubmitted := None);
      }
      targetNonce := nonce;
      ApplyTargetNonceKeepsBest(q0, t0, raceState, nonce);
    }

    /** `select_nonces_to_deliver_with_selector`: pop batches off the front of the queue while
        the target knows their header and the selector lets them through whole, put back the
        first batch held back (or the suffix the selector names), and select the nonces from
        `targetNonce + 1` to the end of what was let through. A selector that returns
        anything but a non-empty suffix of the range it was shown is a panic. */
    method SelectNoncesToDeliverWithSelector(raceState: RaceState, selector: NonceRange -> Option<NonceRange>)
      returns (selection: Selection)
      requires Valid()
      modifies this
      ensures Valid()
      ensures targetNonce == old(targetNonce)
      ensures SelectionStep(selection, sourceQueue) == Select(old(sourceQueue), targetNonce, raceState, selector)
    {
      if raceState.noncesToSubmit.Some? {
        return NoSelection;
      }
      if raceState.noncesSubmitted.Some? {
        return NoSelection;
      }
      if raceState.targetState.None? {
        return NoSelection;
      }
      var bestHeaderAtTarget := raceState.targetState.value.bestPeer;
      ghost var q0 := sourceQueue;
      var noncesEnd: Option<nat> := None;
      while sourceQueue != []
        invariant Scan(sourceQueue, bestHeaderAtTarget.number, selector, noncesEnd) == Scan(q0, bestHeaderAtTarget.number, selector, None)
        invariant targetNonce == old(targetNonce)
        decreases |sourceQueue|
      {
        var entry := sourceQueue[0];
        sourceQueue := sourceQueue[1..];
        var rangeToRequeue := if bestHeaderAtTarget.number < entry.queuedAt.number then Some(entry.range) else selector(entry.range);
        match rangeToRequeue
        case Some(requeued) =>
          if !(requeued.begin <= requeued.end && requeued.begin >= entry.range.begin && requeued.end == entry.range.end) {
            SelectSound(q0, targetNonce, raceState, selector);
            ValidQueueSuffix(q0, targetNonce, 1);
            return SelectorBroken;
          }
          if requeued.begin != entry.range.begin {
            noncesEnd := Some(requeued.begin - 1);
          }
          sourceQueue := [QueueEntry(entry.queuedAt, requeued)] + sourceQueue;
          break;
        case None =>
          noncesEnd := Some(entry.range.end);
      }
      SelectSound(q0, targetNonce, raceState, selector);
      match noncesEnd
      case Some(end) =>
        selection := Selected(NonceRange(targetNonce + 1, end));
      case None =>
        selection := NoSelection;
    }

    /** `select_nonces_to_deliver`: selection with the selector that accepts every range.
        It never panics on a valid strategy; the range it returns starts right after the
        target nonce. */
    method SelectNoncesToDeliver(raceState: RaceState) returns (selected: Option<NonceRange>)
      requires Valid()
      modifies this
      ensures Valid()
      ensures targetNonce == old(targetNonce)
      ensures var step := Select(old(sourceQueue), targetNonce, raceState, AcceptAll);
        && sourceQueue == step.queue
        && step.selection != SelectorBroken
        && selected == (if step.selection.Selected? then Some(step.selection.nonces) else None)
      ensures selected.Some? ==> selected.value.begin == targetNonce + 1 <= selected.value.end
    {
      SelectSound(sourceQueue, targetNonce, raceState, AcceptAll);
      if !raceState.DeliveryInFlight() && raceState.targetState.Some? {
        AcceptAllWellBehaved();
        WellBehavedNeverPanics(sourceQueue, targetNonce, raceState.targetState.value.bestPeer.number, AcceptAll, None);
      }
      var selection := SelectNoncesToDeliverWithSelector(raceState, AcceptAll);
      selected := if selection.Selected? then Some(selection.nonces) else None;
    }
  }
}
