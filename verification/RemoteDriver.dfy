/** The sync driver's per-branch state across ticks: resume cursors and retry backoff. */
module RemoteDriver {
  import opened Options
  import opened RemoteBackfill

  // ---------------------------------------------------------------- backoff

  const BACKOFF_BASE: int := 2_000_000_000
  const BACKOFF_MAX: int := 300_000_000_000
  const SHIFT_CAP: int := 8
  const WEDGED_THRESHOLD: nat := 10

  function Pow2(n: nat): (p: nat)
    ensures p >= 1
  {
    if n == 0 then 1 else 2 * Pow2(n - 1)
  }

  /** The shipped delay after the n-th consecutive failure: a capped shift, then clamped. */
  function Delay(failures: nat): int
    requires failures >= 1
  {
    var shift := if failures - 1 > SHIFT_CAP then SHIFT_CAP else failures - 1;
    var delay := BACKOFF_BASE * Pow2(shift);
    if delay > BACKOFF_MAX then BACKOFF_MAX else delay
  }

  function Min(a: int, b: int): int { if a < b then a else b }

  lemma {:induction false} Pow2Grows(m: nat, n: nat)
    requires m <= n
    ensures Pow2(m) <= Pow2(n)
  {
    if m < n {
      Pow2Grows(m, n - 1);
    }
  }

  lemma Pow2Eight()
    ensures Pow2(8) == 256
  {
    assert Pow2(4) == 16;
    assert Pow2(6) == 64;
  }

  /** The cap never shows: the delay is the uncapped exponential, clamped to the maximum. */
  lemma DelayIsExponential(failures: nat)
    requires failures >= 1
    ensures Delay(failures) == Min(BACKOFF_BASE * Pow2(failures - 1), BACKOFF_MAX)
  {
    if failures - 1 > SHIFT_CAP {
      Pow2Eight();
      Pow2Grows(8, failures - 1);
    }
  }

  lemma DelayNeverDecreases(m: nat, n: nat)
    requires 1 <= m <= n
    ensures Delay(m) <= Delay(n)
  {
    DelayIsExponential(m);
    DelayIsExponential(n);
    Pow2Grows(m - 1, n - 1);
  }

  // ---------------------------------------------------------------- one branch

  datatype Retry = Retry(failures: nat, eventId: EventId, nextAttempt: int)

  datatype Branch = Branch(cursor: Option<EventId>, retry: Option<Retry>)

  /** What the end of a pass does to the retry state, and whether it raises the wedged alarm. */
  function Settle(retry: Option<Retry>, end: PassEnd, now: int): (Option<Retry>, bool) {
    match end
    case Completed => (None, false)
    case FetchErrored => (retry, false)
    case Stopped(id) =>
      var failures := if retry.Some? && retry.value.eventId == id then retry.value.failures + 1 else 1;
      (Some(Retry(failures, id, now + Delay(failures))), failures == WEDGED_THRESHOLD)
  }

  predicate Skips(b: Branch, tip: EventId, now: int) {
    (b.retry.Some? && now < b.retry.value.nextAttempt) || b.cursor == Some(tip)
  }

  /** One enumerated branch in one tick. */
  function ReconcileBranch(b: Branch, tip: EventId, now: int, responses: seq<Response>): Branch {
    if Skips(b, tip, now) then b
    else
      var r := Pass(b.cursor, b.cursor, responses, MAX_PAGES);
      Branch(r.last, Settle(b.retry, r.end, now).0)
  }

  // ---------------------------------------------------------------- the driver object

  class Driver {
    var cursors: map<int, EventId>
    var branchRetry: map<int, Retry>
    var alarms: seq<(int, EventId)>

    constructor ()
      ensures cursors == map[] && branchRetry == map[] && alarms == []
    {
      cursors, branchRetry, alarms := map[], map[], [];
    }

    function At(key: int): Branch
      reads this
    {
      Branch(if key in cursors then Some(cursors[key]) else None, if key in branchRetry then Some(branchRetry[key]) else None)
    }

    /** Reconciles one branch; every other branch is left alone.  A branch that still waits for its next
        attempt, or stands at the tip, is left alone too; any other gets its pass. */
    method Reconcile(key: int, tip: EventId, now: int, responses: seq<Response>)
      modifies this
      ensures At(key) == ReconcileBranch(old(At(key)), tip, now, responses)
      ensures forall k :: k != key ==> At(k) == old(At(k))
      ensures (old(At(key)).retry.Some? && now < old(At(key)).retry.value.nextAttempt) || old(At(key)).cursor == Some(tip) ==>
                At(key) == old(At(key)) && alarms == old(alarms)
      ensures (old(At(key)).retry.Some? ==> now >= old(At(key)).retry.value.nextAttempt) && old(At(key)).cursor != Some(tip) ==>
                var r := Pass(old(At(key)).cursor, old(At(key)).cursor, responses, MAX_PAGES);
                At(key) == Branch(r.last, Settle(old(At(key)).retry, r.end, now).0)
      ensures alarms == old(alarms) + RaisedBy(key, old(At(key)), tip, now, responses)
    {
      if key in branchRetry && now < branchRetry[key].nextAttempt {
        return;
      }
      if key in cursors && cursors[key] == tip {
        return;
      }
      hide Pass, Delay;
      var cursor := if key in cursors then Some(cursors[key]) else None;
      var r := RunPass(cursor, responses);
      LastNeverForgotten(cursor, cursor, responses, MAX_PAGES);
      SettleRetry(key, r.end, now);
      label Settled:
      if r.last.Some? {
        cursors := cursors[key := r.last.value];
      }
      assert forall k :: k != key ==> At(k) == old@Settled(At(k));
    }

    /** Backs the branch off, holds its state, or clears it, by how the pass ended. */
    method SettleRetry(key: int, end: PassEnd, now: int)
      modifies this`branchRetry, this`alarms
      ensures At(key).retry == Settle(old(At(key).retry), end, now).0
      ensures forall k :: k != key ==> At(k) == old(At(k))
      ensures alarms == old(alarms) + (if Settle(old(At(key).retry), end, now).1 then [(key, end.eventId)] else [])
    {
      hide Delay;
      match end {
        case Stopped(id) =>
          var st := if key in branchRetry && branchRetry[key].eventId == id then branchRetry[key] else Retry(0, id, now);
          st := st.(failures := st.failures + 1);
          st := st.(nextAttempt := now + Delay(st.failures));
          branchRetry := branchRetry[key := st];
          if st.failures == WEDGED_THRESHOLD {
            alarms := alarms + [(key, id)];
          }
        case FetchErrored =>
        case Completed =>
          branchRetry := map k | k in branchRetry && k != key :: branchRetry[k];
      }
    }
  }

  function RaisedBy(key: int, b: Branch, tip: EventId, now: int, responses: seq<Response>): seq<(int, EventId)> {
    if Skips(b, tip, now) then []
    else
      var end := Pass(b.cursor, b.cursor, responses, MAX_PAGES).end;
      if Settle(b.retry, end, now).1 then [(key, end.eventId)] else []
  }

  lemma {:induction false} LastNeverForgotten(cursor: Option<EventId>, last: Option<EventId>, responses: seq<Response>, pages: nat)
    ensures last.Some? ==> Pass(cursor, last, responses, pages).last.Some?
    decreases pages
  {
    if pages > 0 && responses != [] && responses[0].fetch.Page? {
      var events := responses[0].fetch.events;
      var n := Passed(events, responses[0].outcomes);
      if n == |events| && responses[0].fetch.nextCursor.Some? {
        LastNeverForgotten(responses[0].fetch.nextCursor, if n > 0 then Some(events[n-1]) else last, responses[1..], pages - 1);
      }
    }
  }
}
