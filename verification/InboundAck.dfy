/** How importer results become an inbound acknowledgement. */
module InboundAck {
  import opened RemoteBackfill

  datatype Disposition = Accepted | RetryLater | Quarantined

  /** A durable delivery cannot pass a rejected event or a missing parent; a legacy one can. */
  function DispositionOf(result: ImportOutcome, durable: bool): Disposition {
    match result
    case Retryable => RetryLater
    case Rejected => if durable then RetryLater else Quarantined
    case DeferredNeedsBaseline => if durable then RetryLater else Accepted
    case Applied => Accepted
    case Deduped => Accepted
    case Skipped => Accepted
    case Future(_) => RetryLater
  }

  function Dispositions(results: seq<ImportOutcome>, durable: bool): (ds: seq<Disposition>)
    ensures |ds| == |results|
    ensures forall i :: 0 <= i < |ds| ==> ds[i] == DispositionOf(results[i], durable)
  {
    seq(|results|, i requires 0 <= i < |results| => DispositionOf(results[i], durable))
  }

  /** Builds the ack and decides whether the delivery may be completed. */
  method AckFromResults(events: nat, results: seq<ImportOutcome>, durable: bool) returns (ack: seq<Disposition>, terminal: bool)
    ensures ack == Dispositions(results, durable)
    ensures terminal <==> |results| == events && RetryLater !in ack
  {
    ack := [];
    terminal := |results| == events;
    for i := 0 to |results|
      invariant ack == Dispositions(results[..i], durable)
      invariant terminal <==> |results| == events && RetryLater !in ack
    {
      var d := DispositionOf(results[i], durable);
      if d == RetryLater {
        terminal := false;
      }
      ack := ack + [d];
      assert results[..i+1] == results[..i] + [results[i]];
    }
    assert results[..|results|] == results;
  }

  /** A durable delivery completes exactly when every event was applied, already held, or skipped. */
  lemma DurableTerminalIff(events: nat, results: seq<ImportOutcome>)
    ensures |results| == events && RetryLater !in Dispositions(results, true)
       <==> |results| == events && forall i :: 0 <= i < |results| ==> results[i] in {Applied, Deduped, Skipped}
  {
    var ds := Dispositions(results, true);
    forall i | 0 <= i < |results| ensures ds[i] != RetryLater <==> results[i] in {Applied, Deduped, Skipped} {}
    if RetryLater !in ds {
      forall i | 0 <= i < |results| ensures results[i] in {Applied, Deduped, Skipped} {
        assert ds[i] in ds;
      }
    }
  }

  /** On the legacy path only a transient failure or an outcome this build does not know asks for a retry,
      and just the rejected events are set aside; on the durable path nothing is ever set aside. */
  lemma LegacyAck(results: seq<ImportOutcome>, i: nat)
    requires i < |results|
    ensures var legacy, d := Dispositions(results, false), Dispositions(results, true);
      && (legacy[i] == RetryLater <==> results[i].Retryable? || results[i].Future?)
      && (legacy[i] == Quarantined <==> results[i].Rejected?)
      && d[i] != Quarantined && (legacy[i] == RetryLater ==> d[i] == RetryLater)
      && (legacy[i] == Accepted && d[i] == RetryLater <==> results[i].DeferredNeedsBaseline?)
  {
    match results[i] {
      case Applied => case Deduped => case Skipped => case Rejected =>
      case DeferredNeedsBaseline => case Retryable => case Future(_) =>
    }
  }
}
