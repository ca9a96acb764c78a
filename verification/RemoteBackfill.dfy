/** The remote backfill of one branch: paging forward from a cursor against an adversarial relay and
    importer, with exponential backoff and a wedge alarm. */
module RemoteBackfill {
  import opened Options

  type EventId = int

  datatype ImportOutcome = Applied | Deduped | Skipped | Rejected | DeferredNeedsBaseline | Retryable | Future(code: int)

  datatype FetchResult = FetchError | Page(events: seq<EventId>, nextCursor: Option<EventId>)

  /** What the relay answers to one fetch, and what the importer says of each event on the page.  The
      importer may answer with fewer outcomes than events. */
  datatype Response = Response(fetch: FetchResult, outcomes: seq<ImportOutcome>)

  /** How a pass over a branch ended. */
  datatype PassEnd = Completed | FetchErrored | Stopped(eventId: EventId)

  /** The last event passed, how the pass ended, and what the importer said of every event fetched. */
  datatype PassResult = PassResult(last: Option<EventId>, end: PassEnd, seen: seq<Verdict>)

  datatype Verdict = Verdict(eventId: EventId, outcome: Option<ImportOutcome>)

  const MAX_PAGES: nat := 1000

  // ---------------------------------------------------------------- one page

  /** How many events of the page the cursor may pass: those before the first retryable one. */
  function Passed(events: seq<EventId>, outcomes: seq<ImportOutcome>): (n: nat)
    ensures n <= |events|
    ensures forall i :: 0 <= i < n && i < |outcomes| ==> outcomes[i] != Retryable
    ensures n < |events| ==> n < |outcomes| && outcomes[n] == Retryable
  {
    if events == [] then 0
    else if outcomes == [] then |events|
    else if outcomes[0] == Retryable then 0
    else 1 + Passed(events[1..], outcomes[1..])
  }

  function Verdicts(events: seq<EventId>, outcomes: seq<ImportOutcome>): (vs: seq<Verdict>)
    ensures |vs| == |events|
  {
    seq(|events|, i requires 0 <= i < |events| => Verdict(events[i], if i < |outcomes| then Some(outcomes[i]) else None))
  }

  /** One pass: pages until the relay has no more, errs, or an event must be retried. */
  function Pass(cursor: Option<EventId>, last: Option<EventId>, responses: seq<Response>, pages: nat): (r: PassResult)
    decreases pages
  {
    if pages == 0 then PassResult(last, Completed, [])
    else if responses == [] || responses[0].fetch.FetchError? then PassResult(last, FetchErrored, [])
    else
      var events, outcomes, next := responses[0].fetch.events, responses[0].outcomes, responses[0].fetch.nextCursor;
      var n, vs := Passed(events, outcomes), Verdicts(events, outcomes);
      var last' := if n > 0 then Some(events[n-1]) else last;
      if n < |events| then PassResult(last', Stopped(events[n]), vs)
      else if next.None? then PassResult(last', Completed, vs)
      else
        var r := Pass(next, last', responses[1..], pages - 1);
        r.(seen := vs + r.seen)
  }

  method RunPass(start: Option<EventId>, responses: seq<Response>) returns (r: PassResult)
    ensures r == Pass(start, start, responses, MAX_PAGES)
  {
    var cursor, last, rest := start, start, responses;
    var seen: seq<Verdict> := [];
    var page := 0;
    while page < MAX_PAGES
      invariant 0 <= page <= MAX_PAGES
      invariant Pass(start, start, responses, MAX_PAGES)
             == Pass(cursor, last, rest, MAX_PAGES - page).(seen := seen + Pass(cursor, last, rest, MAX_PAGES - page).seen)
    {
      if rest == [] || rest[0].fetch.FetchError? {
        assert seen + [] == seen;
        return PassResult(last, FetchErrored, seen);
      }
      var events, outcomes := rest[0].fetch.events, rest[0].outcomes;
      var n := AdvanceThrough(events, outcomes);
      ghost var before := seen;
      seen := seen + Verdicts(events, outcomes);
      if n > 0 {
        last := Some(events[n-1]);
      }
      if n < |events| {
        return PassResult(last, Stopped(events[n]), seen);
      }
      if rest[0].fetch.nextCursor.None? {
        return PassResult(last, Completed, seen);
      }
      cursor := rest[0].fetch.nextCursor;
      rest := rest[1..];
      page := page + 1;
      assert forall t :: before + (Verdicts(events, outcomes) + t) == seen + t;
    }
    assert seen + [] == seen;
    return PassResult(last, Completed, seen);
  }

  method AdvanceThrough(events: seq<EventId>, outcomes: seq<ImportOutcome>) returns (n: nat)
    ensures n == Passed(events, outcomes)
  {
    n := 0;
    while n < |events|
      invariant 0 <= n <= |events|
      invariant Passed(events, outcomes) == n + Passed(events[n..], if n <= |outcomes| then outcomes[n..] else [])
    {
      if n < |outcomes| && outcomes[n] == Retryable {
        return;
      }
      n := n + 1;
    }
  }
}
