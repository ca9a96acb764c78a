/** Whole runs of the backfill driver on one branch: no event is silently lost, and retries back off
    and raise the alarm exactly as intended. */
module RemoteSafety {
  import opened Options
  import opened RemoteBackfill
  import opened RemoteDriver

  // ---------------------------------------------------------------- the relay's order

  predicate Distinct(log: seq<EventId>) {
    forall i, j :: 0 <= i < j < |log| ==> log[i] != log[j]
  }

  predicate Known(log: seq<EventId>, c: Option<EventId>) {
    c.Some? ==> c.value in log
  }

  /** How many events of the relay's log lie at or before a cursor. */
  function Pos(log: seq<EventId>, c: Option<EventId>): (p: nat)
    requires Known(log, c)
    ensures p <= |log|
    ensures c.Some? ==> p > 0 && log[p-1] == c.value
    ensures c.None? ==> p == 0
  {
    if c.None? then 0 else if log[|log|-1] == c.value then |log| else Pos(log[..|log|-1], c)
  }

  /** The importer answered for every event of the page, or asked for a retry somewhere on it. */
  predicate Answered(r: Response)
    requires r.fetch.Page?
  {
    |r.outcomes| >= |r.fetch.events| || Retryable in r.outcomes
  }

  /** A relay that pages in chain order.  It may err at any fetch and choose any page size; what it may
      not do is skip: a page continues right after its cursor, and the next cursor names its end.  In
      a strict run the importer also answers for every page. */
  ghost predicate Honest(log: seq<EventId>, cursor: Option<EventId>, responses: seq<Response>, strict: bool)
    decreases responses
  {
    Known(log, cursor) &&
    (responses != [] && responses[0].fetch.Page? ==>
      var p, events, next := Pos(log, cursor), responses[0].fetch.events, responses[0].fetch.nextCursor;
      var q := p + |events|;
      && (strict ==> Answered(responses[0]))
      && q <= |log| && log[p..q] == events
      && (next.Some? ==> q > 0 && next.value == log[q-1] && Honest(log, next, responses[1..], strict)))
  }

  lemma PosOf(log: seq<EventId>, q: nat)
    requires Distinct(log) && 0 < q <= |log|
    ensures Known(log, Some(log[q-1])) && Pos(log, Some(log[q-1])) == q
  {
    var p := Pos(log, Some(log[q-1]));
    assert log[p-1] == log[q-1];
  }

  /** The importer was asked about this event and did not ask for a retry; in a strict run it gave a
      final outcome. */
  ghost predicate Settled(seen: seq<Verdict>, id: EventId, strict: bool) {
    exists v :: v in seen && v.eventId == id && v.outcome != Some(Retryable) && (strict ==> v.outcome.Some?)
  }

  lemma SettledMore(a: seq<Verdict>, b: seq<Verdict>, id: EventId, strict: bool)
    ensures Settled(a, id, strict) || Settled(b, id, strict) ==> Settled(a + b, id, strict)
  {
    if Settled(a, id, strict) {
      var v :| v in a && v.eventId == id && v.outcome != Some(Retryable) && (strict ==> v.outcome.Some?);
      assert v in a + b;
    }
    if Settled(b, id, strict) {
      var v :| v in b && v.eventId == id && v.outcome != Some(Retryable) && (strict ==> v.outcome.Some?);
      assert v in a + b;
    }
  }

  /** A page's cursor passes only answered events exactly when the importer answered the page. */
  lemma {:induction false} PassedAllAnsweredIff(events: seq<EventId>, outcomes: seq<ImportOutcome>)
    ensures Passed(events, outcomes) <= |outcomes|
       <==> |outcomes| >= |events| || Retryable in outcomes
  {
    if events != [] && outcomes != [] {
      PassedAllAnsweredIff(events[1..], outcomes[1..]);
      assert outcomes == [outcomes[0]] + outcomes[1..];
    }
  }

  lemma PassedAreSettled(page: Response, i: nat, strict: bool)
    requires page.fetch.Page? && i < Passed(page.fetch.events, page.outcomes)
    requires strict ==> Answered(page)
    ensures Settled(Verdicts(page.fetch.events, page.outcomes), page.fetch.events[i], strict)
  {
    PassedAllAnsweredIff(page.fetch.events, page.outcomes);
    assert Verdicts(page.fetch.events, page.outcomes)[i] in Verdicts(page.fetch.events, page.outcomes);
  }

  /** A pass moves forward over settled events only, and stops right before the one to retry. */
  ghost predicate Advances(log: seq<EventId>, from: Option<EventId>, r: PassResult, strict: bool) {
    && Known(log, from) && Known(log, r.last)
    && Pos(log, from) <= Pos(log, r.last)
    && (forall k :: Pos(log, from) <= k < Pos(log, r.last) ==> Settled(r.seen, log[k], strict))
    && (r.end.Stopped? ==> Pos(log, r.last) < |log| && log[Pos(log, r.last)] == r.end.eventId)
  }

  lemma SliceAt(log: seq<EventId>, p: nat, events: seq<EventId>, i: nat)
    requires p + |events| <= |log| && log[p..p+|events|] == events && i < |events|
    ensures events[i] == log[p+i]
  {
    assert log[p..p+|events|][i] == log[p+i];
  }

  /** Where one honest page leaves the cursor. */
  function LastAfter(cursor: Option<EventId>, response: Response): Option<EventId>
    requires response.fetch.Page?
  {
    var n := Passed(response.fetch.events, response.outcomes);
    if n > 0 then Some(response.fetch.events[n-1]) else cursor
  }

  /** What a pass that ends on this page reports. */
  function PageResult(cursor: Option<EventId>, response: Response): PassResult
    requires response.fetch.Page?
  {
    var n := Passed(response.fetch.events, response.outcomes);
    PassResult(LastAfter(cursor, response),
               if n < |response.fetch.events| then Stopped(response.fetch.events[n]) else Completed,
               Verdicts(response.fetch.events, response.outcomes))
  }

  /** The relay's page is what follows the cursor in its log. */
  ghost predicate PageOf(log: seq<EventId>, cursor: Option<EventId>, response: Response) {
    && Known(log, cursor) && response.fetch.Page?
    && Pos(log, cursor) + |response.fetch.events| <= |log|
    && log[Pos(log, cursor)..Pos(log, cursor) + |response.fetch.events|] == response.fetch.events
  }

  lemma PageMoves(log: seq<EventId>, cursor: Option<EventId>, response: Response)
    requires Distinct(log) && PageOf(log, cursor, response)
    ensures Known(log, LastAfter(cursor, response))
    ensures Pos(log, LastAfter(cursor, response)) == Pos(log, cursor) + Passed(response.fetch.events, response.outcomes)
  {
    hide Distinct, Passed;
    var n := Passed(response.fetch.events, response.outcomes);
    if n > 0 {
      SliceAt(log, Pos(log, cursor), response.fetch.events, n - 1);
      PosOf(log, Pos(log, cursor) + n);
    }
  }

  lemma PageSettles(log: seq<EventId>, cursor: Option<EventId>, response: Response, strict: bool, k: nat)
    requires PageOf(log, cursor, response) && (strict ==> Answered(response))
    requires Pos(log, cursor) <= k < Pos(log, cursor) + Passed(response.fetch.events, response.outcomes)
    ensures Settled(Verdicts(response.fetch.events, response.outcomes), log[k], strict)
  {
    hide Settled, Verdicts, Passed, Pos;
    SliceAt(log, Pos(log, cursor), response.fetch.events, k - Pos(log, cursor));
    PassedAreSettled(response, k - Pos(log, cursor), strict);
  }

  lemma PageAdvances(log: seq<EventId>, cursor: Option<EventId>, response: Response, strict: bool)
    requires Distinct(log) && PageOf(log, cursor, response)
    requires strict ==> Answered(response)
    ensures Advances(log, cursor, PageResult(cursor, response), strict)
  {
    hide Distinct, Settled, Verdicts, Pos, Passed, LastAfter;
    var events, p := response.fetch.events, Pos(log, cursor);
    var n := Passed(events, response.outcomes);
    PageMoves(log, cursor, response);
    forall k | p <= k < p + n ensures Settled(Verdicts(events, response.outcomes), log[k], strict) {
      PageSettles(log, cursor, response, strict, k);
    }
    if n < |events| {
      SliceAt(log, p, events, n);
    }
  }

  lemma {:induction false} PassAdvances(log: seq<EventId>, cursor: Option<EventId>, responses: seq<Response>, pages: nat, strict: bool)
    requires Distinct(log) && Honest(log, cursor, responses, strict)
    ensures Advances(log, cursor, Pass(cursor, cursor, responses, pages), strict)
    decreases pages
  {
    hide Distinct, Settled, Verdicts, Advances, Pos;
    if pages == 0 || responses == [] || responses[0].fetch.FetchError? {
      NothingAdvances(log, cursor, Pass(cursor, cursor, responses, pages), strict);
    } else {
      var page, next := responses[0], responses[0].fetch.nextCursor;
      PageAdvances(log, cursor, page, strict);
      if Passed(page.fetch.events, page.outcomes) == |page.fetch.events| && next.Some? {
        FullPageReachesNext(log, cursor, page);
        PassAdvances(log, next, responses[1..], pages - 1, strict);
        AdvancesJoin(log, cursor, next, PageResult(cursor, page), Pass(next, next, responses[1..], pages - 1), strict);
      }
    }
  }

  lemma NothingAdvances(log: seq<EventId>, cursor: Option<EventId>, r: PassResult, strict: bool)
    requires Known(log, cursor) && r.last == cursor && !r.end.Stopped?
    ensures Advances(log, cursor, r, strict)
  {
  }

  /** After a fully passed page the last event passed is the relay's next cursor. */
  lemma FullPageReachesNext(log: seq<EventId>, cursor: Option<EventId>, page: Response)
    requires Known(log, cursor) && page.fetch.Page? && page.fetch.nextCursor.Some?
    requires Passed(page.fetch.events, page.outcomes) == |page.fetch.events|
    requires var q := Pos(log, cursor) + |page.fetch.events|;
      0 < q <= |log| && log[Pos(log, cursor)..q] == page.fetch.events && page.fetch.nextCursor.value == log[q-1]
    ensures LastAfter(cursor, page) == page.fetch.nextCursor
  {
    var n := |page.fetch.events|;
    if n > 0 {
      SliceAt(log, Pos(log, cursor), page.fetch.events, n - 1);
    }
  }

  lemma AdvancesJoin(log: seq<EventId>, from: Option<EventId>, mid: Option<EventId>, first: PassResult, r: PassResult, strict: bool)
    requires Advances(log, from, first, strict) && first.last == mid && Advances(log, mid, r, strict)
    ensures Advances(log, from, r.(seen := first.seen + r.seen), strict)
  {
    forall k | Pos(log, from) <= k < Pos(log, r.last) ensures Settled(first.seen + r.seen, log[k], strict) {
      SettledMore(first.seen, r.seen, log[k], strict);
    }
  }

  // ---------------------------------------------------------------- a pass goes as far as it can

  /** The relay serves its log from the cursor to the end, and the importer asks for no retry. */
  ghost predicate Serves(log: seq<EventId>, cursor: Option<EventId>, responses: seq<Response>)
    decreases responses
  {
    && responses != [] && PageOf(log, cursor, responses[0]) && Retryable !in responses[0].outcomes
    && (var q, next := Pos(log, cursor) + |responses[0].fetch.events|, responses[0].fetch.nextCursor;
        if next.None? then q == |log|
        else 0 < q && next.value == log[q-1] && Serves(log, next, responses[1..]))
  }

  /** Then the pass ends complete, with the cursor at the end of the log. */
  lemma {:induction false} PassCatchesUp(log: seq<EventId>, cursor: Option<EventId>, responses: seq<Response>, pages: nat)
    requires Distinct(log) && Serves(log, cursor, responses) && |responses| <= pages
    ensures var r := Pass(cursor, cursor, responses, pages);
      r.end == Completed && Known(log, r.last) && Pos(log, r.last) == |log|
    decreases pages
  {
    hide Distinct, Pos, Verdicts;
    var page := responses[0];
    PageMoves(log, cursor, page);
    if page.fetch.nextCursor.Some? {
      FullPageReachesNext(log, cursor, page);
      PassCatchesUp(log, page.fetch.nextCursor, responses[1..], pages - 1);
    }
  }

  predicate AskedToRetry(v: Verdict) { v.outcome == Some(Retryable) }

  /** `id` is the first event the importer asked to have retried, or it asked for none. */
  ghost predicate StopsRight(seen: seq<Verdict>, end: PassEnd) {
    && (end.Stopped? <==> exists v :: v in seen && AskedToRetry(v))
    && (end.Stopped? ==> exists i :: 0 <= i < |seen| && seen[i] == Verdict(end.eventId, Some(Retryable))
                                  && forall j :: 0 <= j < i ==> !AskedToRetry(seen[j]))
  }

  /** A pass stops exactly when the importer asked for a retry, at the first event it asked for. */
  lemma {:induction false} PassStopsIff(cursor: Option<EventId>, last: Option<EventId>, responses: seq<Response>, pages: nat)
    ensures StopsRight(Pass(cursor, last, responses, pages).seen, Pass(cursor, last, responses, pages).end)
    decreases pages
  {
    hide StopsRight, Passed, Verdicts;
    NothingAsked();
    if pages > 0 && responses != [] && responses[0].fetch.Page? {
      var events, outcomes, next := responses[0].fetch.events, responses[0].outcomes, responses[0].fetch.nextCursor;
      var n, vs := Passed(events, outcomes), Verdicts(events, outcomes);
      PageStops(events, outcomes);
      if n == |events| && next.Some? {
        var last' := if n > 0 then Some(events[n-1]) else last;
        var r := Pass(next, last', responses[1..], pages - 1);
        PassStopsIff(next, last', responses[1..], pages - 1);
        StopsShifted(vs, r.seen, r.end);
      }
    }
  }

  lemma NothingAsked()
    ensures StopsRight([], Completed) && StopsRight([], FetchErrored)
  {
  }

  lemma PageStops(events: seq<EventId>, outcomes: seq<ImportOutcome>)
    ensures var n, vs := Passed(events, outcomes), Verdicts(events, outcomes);
      && (n < |events| ==> StopsRight(vs, Stopped(events[n])))
      && (n == |events| ==> StopsRight(vs, Completed) && forall j :: 0 <= j < |vs| ==> !AskedToRetry(vs[j]))
  {
    var n, vs := Passed(events, outcomes), Verdicts(events, outcomes);
    if n < |events| {
      assert vs[n] == Verdict(events[n], Some(Retryable));
      assert vs[n] in vs && AskedToRetry(vs[n]);
    }
  }

  lemma StopsShifted(vs: seq<Verdict>, seen: seq<Verdict>, end: PassEnd)
    requires forall j :: 0 <= j < |vs| ==> !AskedToRetry(vs[j])
    requires StopsRight(seen, end)
    ensures StopsRight(vs + seen, end)
  {
    var all := vs + seen;
    if end.Stopped? {
      var i :| 0 <= i < |seen| && seen[i] == Verdict(end.eventId, Some(Retryable)) && forall j :: 0 <= j < i ==> !AskedToRetry(seen[j]);
      assert all[|vs| + i] == seen[i];
      assert all[|vs| + i] in all && AskedToRetry(all[|vs| + i]);
      assert forall j :: 0 <= j < |vs| + i ==> all[j] == if j < |vs| then vs[j] else seen[j - |vs|];
    }
  }

  // ---------------------------------------------------------------- runs

  /** One tick: the relay's log as it stands, the tip it advertises, the clock, and its answers. */
  datatype Tick = Tick(log: seq<EventId>, tip: EventId, now: int, responses: seq<Response>)

  function After(ticks: seq<Tick>): Branch {
    if ticks == [] then Branch(None, None)
    else
      var b, t := After(ticks[..|ticks|-1]), ticks[|ticks|-1];
      ReconcileBranch(b, t.tip, t.now, t.responses)
  }

  /** Everything the importer was asked about, over the run. */
  function Seen(ticks: seq<Tick>): seq<Verdict> {
    if ticks == [] then []
    else
      var b, t := After(ticks[..|ticks|-1]), ticks[|ticks|-1];
      Seen(ticks[..|ticks|-1]) + (if Skips(b, t.tip, t.now) then [] else Pass(b.cursor, b.cursor, t.responses, MAX_PAGES).seen)
  }

  /** Logs only grow, and every answer is honest about the log of its tick. */
  ghost predicate HonestRun(ticks: seq<Tick>, strict: bool) {
    ticks != [] ==>
      var front, t := ticks[..|ticks|-1], ticks[|ticks|-1];
      && HonestRun(front, strict) && Distinct(t.log)
      && (front != [] ==> front[|front|-1].log <= t.log)
      && (Known(t.log, After(front).cursor) ==> Honest(t.log, After(front).cursor, t.responses, strict))
  }

  function LogAfter(ticks: seq<Tick>): seq<EventId> {
    if ticks == [] then [] else ticks[|ticks|-1].log
  }

  lemma PosInPrefix(shorter: seq<EventId>, longer: seq<EventId>, c: Option<EventId>)
    requires shorter <= longer && Distinct(longer) && Known(shorter, c)
    ensures Known(longer, c) && Pos(longer, c) == Pos(shorter, c)
  {
    if c.Some? {
      var p := Pos(shorter, c);
      assert longer[p-1] == shorter[p-1] == c.value;
      PosOf(longer, p);
    }
  }

  /** In every reachable state each event at or before the stored cursor was settled, and the cursor
      has only moved forward in the relay's order. */
  lemma {:induction false} NoSilentLoss(ticks: seq<Tick>, strict: bool)
    requires HonestRun(ticks, strict)
    ensures Known(LogAfter(ticks), After(ticks).cursor)
    ensures forall k :: 0 <= k < Pos(LogAfter(ticks), After(ticks).cursor) ==> Settled(Seen(ticks), LogAfter(ticks)[k], strict)
    ensures ticks != [] ==> Known(LogAfter(ticks), After(ticks[..|ticks|-1]).cursor)
    ensures ticks != [] ==> Pos(LogAfter(ticks), After(ticks[..|ticks|-1]).cursor) <= Pos(LogAfter(ticks), After(ticks).cursor)
  {
    if ticks != [] {
      var front, t := ticks[..|ticks|-1], ticks[|ticks|-1];
      NoSilentLoss(front, strict);
      var b, log := After(front), LogAfter(front);
      PosInPrefix(log, t.log, b.cursor);
      PassAdvances(t.log, b.cursor, t.responses, MAX_PAGES, strict);
      var r := Pass(b.cursor, b.cursor, t.responses, MAX_PAGES);
      forall k | 0 <= k < Pos(t.log, After(ticks).cursor) ensures Settled(Seen(ticks), t.log[k], strict) {
        SettledMore(Seen(front), if Skips(b, t.tip, t.now) then [] else r.seen, t.log[k], strict);
      }
    }
  }

  // ---------------------------------------------------------------- when the importer stays silent

  /** An importer with no store answers nothing, and the cursor passes the whole page. */
  lemma SilentImporterIsPassed(log: seq<EventId>)
    requires Distinct(log) && log != []
    ensures var responses := [Response(Page(log, None), [])];
      && Honest(log, None, responses, false)
      && Pass(None, None, responses, MAX_PAGES).last == Some(log[|log|-1])
      && forall v :: v in Pass(None, None, responses, MAX_PAGES).seen ==> v.outcome.None?
  {
    var responses := [Response(Page(log, None), [])];
    assert log[0..|log|] == log;
    assert Pass(None, None, responses, MAX_PAGES).seen == Verdicts(log, []);
  }

  // ---------------------------------------------------------------- streaks

  /** The ends of the passes actually made, with the clock at each. */
  datatype Ended = Ended(end: PassEnd, now: int)

  function RetryAfter(trace: seq<Ended>): Option<Retry> {
    if trace == [] then None
    else Settle(RetryAfter(trace[..|trace|-1]), trace[|trace|-1].end, trace[|trace|-1].now).0
  }

  /** Alarms raised from step `s` on. */
  function Alarms(trace: seq<Ended>, s: nat): nat
    requires s <= |trace|
  {
    if |trace| == s then 0
    else
      var front := trace[..|trace|-1];
      Alarms(front, s) + (if Settle(RetryAfter(front), trace[|trace|-1].end, trace[|trace|-1].now).1 then 1 else 0)
  }

  /** Failed imports from step `s` on. */
  function Stops(trace: seq<Ended>, s: nat): nat
    requires s <= |trace|
  {
    if |trace| == s then 0
    else Stops(trace[..|trace|-1], s) + (if trace[|trace|-1].end.Stopped? then 1 else 0)
  }

  /** From `s` to the end the branch only fails on `id` or cannot fetch; just before, it did neither. */
  predicate Streak(trace: seq<Ended>, s: nat, id: EventId) {
    && s <= |trace|
    && (forall k :: s <= k < |trace| ==> trace[k].end == Stopped(id) || trace[k].end.FetchErrored?)
    && (s > 0 ==> trace[s-1].end != Stopped(id) && !trace[s-1].end.FetchErrored?)
  }

  lemma {:induction false} FailuresCountTheStreak(trace: seq<Ended>, s: nat, id: EventId)
    requires Streak(trace, s, id)
    ensures var r := RetryAfter(trace);
      && (Stops(trace, s) == 0 ==> r.None? || r.value.eventId != id)
      && (Stops(trace, s) > 0 ==> r.Some? && r.value.eventId == id && r.value.failures == Stops(trace, s))
    decreases |trace|
  {
    if s < |trace| {
      FailuresCountTheStreak(trace[..|trace|-1], s, id);
    }
  }

  /** The n-th failure of a streak waits the n-th exponential delay; fetch errors neither reset it nor
      advance it. */
  lemma StreakDelay(trace: seq<Ended>, s: nat, id: EventId)
    requires Streak(trace, s, id) && s < |trace| && trace[|trace|-1].end == Stopped(id)
    ensures Stops(trace, s) > 0 && RetryAfter(trace).Some?
    ensures RetryAfter(trace).value.nextAttempt
         == trace[|trace|-1].now + Min(BACKOFF_BASE * Pow2(Stops(trace, s) - 1), BACKOFF_MAX)
  {
    FailuresCountTheStreak(trace, s, id);
    DelayIsExponential(Stops(trace, s));
  }

  /** Each streak that reaches the threshold raises the alarm exactly once; a shorter one never does. */
  lemma {:induction false} OneAlarmPerStreak(trace: seq<Ended>, s: nat, id: EventId)
    requires Streak(trace, s, id)
    ensures Alarms(trace, s) == if Stops(trace, s) >= WEDGED_THRESHOLD then 1 else 0
    decreases |trace|
  {
    if s < |trace| {
      OneAlarmPerStreak(trace[..|trace|-1], s, id);
      FailuresCountTheStreak(trace[..|trace|-1], s, id);
    }
  }

  /** The passes a run actually makes. */
  function TraceOf(ticks: seq<Tick>): seq<Ended> {
    if ticks == [] then []
    else
      var front, t := ticks[..|ticks|-1], ticks[|ticks|-1];
      var b := After(front);
      TraceOf(front) + (if Skips(b, t.tip, t.now) then [] else [Ended(Pass(b.cursor, b.cursor, t.responses, MAX_PAGES).end, t.now)])
  }

  lemma RetrySnoc(trace: seq<Ended>, e: Ended)
    ensures RetryAfter(trace + [e]) == Settle(RetryAfter(trace), e.end, e.now).0
  {
    assert (trace + [e])[..|trace|] == trace;
  }

  /** The driver's retry state is the streak state of the passes it made. */
  lemma {:induction false} RunRetryIsTraceRetry(ticks: seq<Tick>)
    ensures After(ticks).retry == RetryAfter(TraceOf(ticks))
  {
    if ticks != [] {
      hide RetryAfter, Pass, Settle;
      var front, t := ticks[..|ticks|-1], ticks[|ticks|-1];
      RunRetryIsTraceRetry(front);
      var b := After(front);
      if Skips(b, t.tip, t.now) {
        assert TraceOf(front) + [] == TraceOf(front);
      } else {
        RetrySnoc(TraceOf(front), Ended(Pass(b.cursor, b.cursor, t.responses, MAX_PAGES).end, t.now));
      }
    }
  }

  // ---------------------------------------------------------------- the delay is waited out

  lemma {:induction false} TraceOfPrefix(ticks: seq<Tick>, n: nat)
    requires n <= |ticks|
    ensures TraceOf(ticks[..n]) <= TraceOf(ticks)
    decreases |ticks|
  {
    hide Pass;
    if n == |ticks| {
      assert ticks[..n] == ticks;
    } else {
      TraceOfPrefix(ticks[..|ticks|-1], n);
      assert ticks[..|ticks|-1][..n] == ticks[..n];
    }
  }

  /** The tick that made the j-th pass. */
  lemma {:induction false} TickOf(ticks: seq<Tick>, j: nat) returns (n: nat)
    requires j < |TraceOf(ticks)|
    ensures n < |ticks| && TraceOf(ticks[..n]) == TraceOf(ticks)[..j] && TraceOf(ticks)[j].now == ticks[n].now
    ensures After(ticks[..n]).retry.Some? ==> ticks[n].now >= After(ticks[..n]).retry.value.nextAttempt
  {
    hide Pass, ReconcileBranch;
    var m := |ticks| - 1;
    var front := ticks[..m];
    if j < |TraceOf(front)| {
      n := TickOf(front, j);
      assert front[..n] == ticks[..n];
      TraceOfPrefix(ticks, m);
      assert TraceOf(front)[..j] == TraceOf(ticks)[..j];
    } else {
      n := m;
    }
  }

  /** Fetch errors hold the retry state. */
  lemma {:induction false} HeldThrough(trace: seq<Ended>, k: nat)
    requires k <= |trace| && forall m :: k <= m < |trace| ==> trace[m].end.FetchErrored?
    ensures RetryAfter(trace) == RetryAfter(trace[..k])
    decreases |trace|
  {
    if k == |trace| {
      assert trace[..k] == trace;
    } else {
      HeldThrough(trace[..|trace|-1], k);
      assert trace[..|trace|-1][..k] == trace[..k];
    }
  }

  /** Over every run: after the n-th failure of a streak the driver makes no pass on the branch, be it one
      that cannot fetch, before the n-th exponential delay is over. */
  lemma BackoffIsWaitedOut(ticks: seq<Tick>, s: nat, k: nat, j: nat, id: EventId)
    requires k < j < |TraceOf(ticks)| && Streak(TraceOf(ticks)[..k+1], s, id) && s <= k && TraceOf(ticks)[k].end == Stopped(id)
    requires forall m :: k < m < j ==> TraceOf(ticks)[m].end.FetchErrored?
    ensures Stops(TraceOf(ticks)[..k+1], s) > 0
    ensures TraceOf(ticks)[j].now
         >= TraceOf(ticks)[k].now + Min(BACKOFF_BASE * Pow2(Stops(TraceOf(ticks)[..k+1], s) - 1), BACKOFF_MAX)
  {
    hide Pass, RetryAfter, TraceOf, Streak, Pow2, Min, Stops;
    var trace := TraceOf(ticks);
    StreakDelay(trace[..k+1], s, id);
    HeldThrough(trace[..j], k + 1);
    assert trace[..j][..k+1] == trace[..k+1];
    var n := TickOf(ticks, j);
    RunRetryIsTraceRetry(ticks[..n]);
  }

  /** A pass that completes clears the retry state, so the branch is free at once. */
  lemma CompletedClears(trace: seq<Ended>)
    requires trace != [] && trace[|trace|-1].end.Completed?
    ensures RetryAfter(trace).None?
  {
  }

  // ---------------------------------------------------------------- the driver's own alarms

  /** The alarms the driver raises for one branch over a run. */
  function AlarmsOf(key: int, ticks: seq<Tick>): seq<(int, EventId)> {
    if ticks == [] then []
    else
      var front, t := ticks[..|ticks|-1], ticks[|ticks|-1];
      AlarmsOf(key, front) + RaisedBy(key, After(front), t.tip, t.now, t.responses)
  }

  lemma AlarmsSnoc(trace: seq<Ended>, e: Ended)
    ensures Alarms(trace + [e], 0) == Alarms(trace, 0) + (if Settle(RetryAfter(trace), e.end, e.now).1 then 1 else 0)
  {
    assert (trace + [e])[..|trace|] == trace;
  }

  /** They are, one for one, those of the passes the run made. */
  lemma {:induction false} RunAlarmsAreTraceAlarms(key: int, ticks: seq<Tick>)
    ensures |AlarmsOf(key, ticks)| == Alarms(TraceOf(ticks), 0)
  {
    if ticks != [] {
      hide Pass, Settle, Alarms, RetryAfter;
      var front, t := ticks[..|ticks|-1], ticks[|ticks|-1];
      RunAlarmsAreTraceAlarms(key, front);
      RunRetryIsTraceRetry(front);
      var b := After(front);
      if Skips(b, t.tip, t.now) {
        assert TraceOf(front) + [] == TraceOf(front);
      } else {
        AlarmsSnoc(TraceOf(front), Ended(Pass(b.cursor, b.cursor, t.responses, MAX_PAGES).end, t.now));
      }
    } else {
      assert Alarms(TraceOf(ticks), 0) == 0;
    }
  }

  lemma {:induction false} AlarmsSplit(trace: seq<Ended>, s: nat)
    requires s <= |trace|
    ensures Alarms(trace, 0) == Alarms(trace[..s], 0) + Alarms(trace, s)
    decreases |trace|
  {
    if s == |trace| {
      assert trace[..s] == trace;
    } else {
      AlarmsSplit(trace[..|trace|-1], s);
      assert trace[..|trace|-1][..s] == trace[..s];
    }
  }

  /** Over a whole run, a streak adds one alarm to the driver's list if it reaches the threshold, else none. */
  lemma StreakAddsOneAlarm(key: int, ticks: seq<Tick>, s: nat, id: EventId)
    requires Streak(TraceOf(ticks), s, id)
    ensures |AlarmsOf(key, ticks)|
         == Alarms(TraceOf(ticks)[..s], 0) + (if Stops(TraceOf(ticks), s) >= WEDGED_THRESHOLD then 1 else 0)
  {
    RunAlarmsAreTraceAlarms(key, ticks);
    AlarmsSplit(TraceOf(ticks), s);
    OneAlarmPerStreak(TraceOf(ticks), s, id);
  }

  /** The driver, tick after tick on one branch, goes through exactly these states and alarms. */
  method DriveBranch(driver: Driver, key: int, ticks: seq<Tick>)
    requires driver.At(key) == Branch(None, None)
    modifies driver
    ensures driver.At(key) == After(ticks)
    ensures driver.alarms == old(driver.alarms) + AlarmsOf(key, ticks)
    ensures forall k :: k != key ==> driver.At(k) == old(driver.At(k))
  {
    hide Pass, Settle, ReconcileBranch, RaisedBy;
    for n := 0 to |ticks|
      invariant driver.At(key) == After(ticks[..n])
      invariant driver.alarms == old(driver.alarms) + AlarmsOf(key, ticks[..n])
      invariant forall k :: k != key ==> driver.At(k) == old(driver.At(k))
    {
      assert ticks[..n+1][..n] == ticks[..n];
      driver.Reconcile(key, ticks[n].tip, ticks[n].now, ticks[n].responses);
    }
    assert ticks[..|ticks|] == ticks;
  }
}
