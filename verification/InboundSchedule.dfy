/** Any schedule of deliveries, redeliveries, native finalizes, restarts and failures. */
module InboundSchedule {
  import opened Options
  import opened RemoteBackfill
  import opened InboundAck
  import opened InboxState
  import opened DurableInbound

  datatype Call =
    | Deliver(d: Delivery, open: bool, results: seq<ImportOutcome>)
    | Finalize(done: Delivery, materializes: bool)
    | Stage(id: nat)
    | Restart(script: seq<Fate>)

  predicate Agree(a: Delivery, b: Delivery) {
    a.next.pos == b.next.pos || a.id == b.id ==> a == b
  }

  /** The relay names each position by one delivery, and each delivery id means one delivery. */
  ghost predicate Stable(calls: seq<Call>) {
    forall i, j :: 0 <= i < |calls| && 0 <= j < |calls| && calls[i].Deliver? && calls[j].Deliver? ==>
      Agree(calls[i].d, calls[j].d)
  }

  ghost predicate SentOne(calls: seq<Call>, d: Delivery) {
    exists j :: 0 <= j < |calls| && calls[j].Deliver? && calls[j].d == d
  }

  ghost predicate Sent(calls: seq<Call>, inbox: Inbox) { forall id :: id in inbox ==> SentOne(calls, inbox[id].delivery) }

  ghost predicate AcceptedAt(calls: seq<Call>, replies: seq<Reply>, i: nat)
    requires i < |calls| && |replies| == |calls|
  {
    calls[i].Deliver? && AcceptsAll(replies[i], calls[i].d)
  }

  lemma SentFits(calls: seq<Call>, n: nat, inbox: Inbox)
    requires n < |calls| && calls[n].Deliver?
    requires Stable(calls) && Sent(calls[..n], inbox) && Named(inbox)
    ensures Fits(inbox, calls[n].d)
  {
    var d := calls[n].d;
    forall id | id in inbox && (id == d.id || inbox[id].delivery.next.pos == d.next.pos) ensures inbox[id].delivery == d {
      var j :| 0 <= j < n && calls[..n][j].Deliver? && calls[..n][j].d == inbox[id].delivery;
      assert calls[j] == calls[..n][j];
    }
  }

  ghost predicate Named(inbox: Inbox) { forall id :: id in inbox ==> inbox[id].delivery.id == id }

  lemma SoundNamed(inbox: Inbox, cursor: Option<Mark>, done: set<Delivery>)
    requires Sound(inbox, cursor, done)
    ensures Named(inbox)
  {
  }

  lemma SoundRecalls(inbox: Inbox, cursor: Option<Mark>, done: set<Delivery>, d: Delivery)
    requires Sound(inbox, cursor, done)
    ensures HasCompleted(inbox, d) ==> d in done
  {
  }

  lemma SentGrows(calls: seq<Call>, n: nat, before: Inbox, after: Inbox)
    requires n < |calls| && Sent(calls[..n], before)
    requires calls[n].Deliver? ==> OnlyAdds(before, after, calls[n].d)
    requires !calls[n].Deliver? ==> forall id :: id in after ==> id in before && before[id].delivery == after[id].delivery
    ensures Sent(calls[..n+1], after)
  {
    forall id | id in after ensures SentOne(calls[..n+1], after[id].delivery) {
      if id in before && before[id].delivery == after[id].delivery {
        var j :| 0 <= j < n && calls[..n][j].Deliver? && calls[..n][j].d == before[id].delivery;
        assert calls[..n+1][j] == calls[..n][j];
      } else {
        assert calls[..n+1][n] == calls[n];
      }
    }
  }

  lemma NothingSent(calls: seq<Call>)
    ensures Distinct(map[]) && Sent(calls[..0], map[])
  {
  }

  /** Once two deliveries were completed to one end mark, the stream stays bound at it. */
  lemma TwiceGrows(done: set<Delivery>, more: set<Delivery>, inbox: Inbox, cursor: Option<Mark>, m: Mark)
    requires done <= more && CompletedTwice(done, m) && Sound(inbox, cursor, more)
    ensures CompletedTwice(more, m) && BoundAt(inbox, cursor, m)
  {
    hide Covered, Kept, Placed, OnePending, WellKept, Remembered, BoundAt;
  }

  lemma DistinctUnbound(inbox: Inbox, cursor: Option<Mark>, done: set<Delivery>, m: Mark)
    requires Distinct(inbox) && Sound(inbox, cursor, done)
    ensures !BoundAt(inbox, cursor, m) && !CompletedTwice(done, m)
  {
    BoundIffCompletedTwice(inbox, cursor, done, m);
  }

  /** No mark binds the stream and the inbox does not clog it. */
  ghost predicate Open(host: Host)
    reads host
  {
    !host.Clogged() && forall m :: !host.StuckOn(m)
  }

  /** A call that no gate lets through to the stream. */
  predicate Shut(c: Call) { c.Deliver? ==> !c.open || !Authentic(c.d) }

  /** Every delivery answered so far got a retry. */
  predicate Retried(calls: seq<Call>, replies: seq<Reply>) {
    forall i :: 0 <= i < |calls| && i < |replies| && calls[i].Deliver? ==> replies[i] == Retry
  }

  /** Whatever the schedule: an accepted delivery stays completed and behind the cursor, and the cursor
      only moves forward over a prefix that completed deliveries cover end to end (both are in `Valid` and
      `Forward`).  The stream is bound at a mark exactly when two deliveries that end there were ever
      completed; from then on the cursor never passes it and nothing is accepted.  A clogged stream stays
      clogged and its cursor stands still.  So once the stream is not open no delivery past the cursor is
      ever accepted.  A relay that numbers stably never binds it.  While every delivery meets a closed gate
      nothing is completed, the cursor stands still, and every answer is a retry. */
  method Serve(host: Host, calls: seq<Call>) returns (replies: seq<Reply>)
    requires host.Valid()
    modifies host
    ensures host.Valid() && host.Forward() && |replies| == |calls|
    ensures forall i :: 0 <= i < |calls| && AcceptedAt(calls, replies, i) ==>
              calls[i].d in host.completedEver && calls[i].d.next.pos <= Reached(host.cursor)
    ensures forall m :: host.StuckOn(m) <==> CompletedTwice(host.completedEver, m)
    ensures forall m :: old(host.StuckOn(m)) ==> host.StuckOn(m) && Reached(host.cursor) <= m.pos
    ensures (exists m :: old(host.StuckOn(m))) ==> forall i :: 0 <= i < |calls| ==> !AcceptedAt(calls, replies, i)
    ensures old(host.Clogged()) ==> host.Clogged() && host.cursor == old(host.cursor)
    ensures !old(Open(host)) ==> !Open(host)
    ensures !old(Open(host)) ==>
              forall i :: 0 <= i < |calls| && AcceptedAt(calls, replies, i) ==> calls[i].d.next.pos <= Reached(old(host.cursor))
    ensures Stable(calls) && old(host.inbox) == map[] ==> Distinct(host.inbox) && forall m :: !host.StuckOn(m)
    ensures (forall c :: c in calls ==> Shut(c)) ==>
              && host.completedEver == old(host.completedEver) && host.cursor == old(host.cursor)
              && host.inbox.Keys <= old(host.inbox.Keys) && Retried(calls, replies)
  {
    hide Stable, Sent, Distinct, Sound, AcceptsAll, CompletedTwice, BoundAt, CloggedAt;
    ghost var items, start, done := host.inbox, host.cursor, host.completedEver;
    replies := [];
    NothingSent(calls);
    for n := 0 to |calls|
      invariant host.Valid() && host.Forward() && |replies| == n
      invariant forall i :: 0 <= i < n && calls[i].Deliver? && AcceptsAll(replies[i], calls[i].d) ==>
                  calls[i].d in host.completedEver && calls[i].d.next.pos <= Reached(host.cursor)
      invariant Stable(calls) && old(host.inbox) == map[] ==> Distinct(host.inbox) && Sent(calls[..n], host.inbox)
      invariant (exists m :: CompletedTwice(done, m)) ==> forall i :: 0 <= i < n && calls[i].Deliver? ==> !AcceptsAll(replies[i], calls[i].d)
      invariant CloggedAt(items, start) ==> host.Clogged() && host.cursor == start
      invariant (forall c :: c in calls ==> Shut(c)) ==>
                  && host.completedEver == done && host.cursor == start && host.inbox.Keys <= items.Keys
                  && Retried(calls, replies)
    {
      var reply := ServeOne(host, calls, n, done);
      replies := replies + [reply];
    }
    forall m
      ensures host.StuckOn(m) <==> CompletedTwice(host.completedEver, m)
      ensures BoundAt(items, start, m) ==> CompletedTwice(done, m) && host.StuckOn(m) && Reached(host.cursor) <= m.pos
      ensures Distinct(host.inbox) ==> !host.StuckOn(m)
    {
      BoundIffCompletedTwice(host.inbox, host.cursor, host.completedEver, m);
      BoundIffCompletedTwice(items, start, done, m);
      if CompletedTwice(done, m) {
        TwiceGrows(done, host.completedEver, host.inbox, host.cursor, m);
        BoundReaches(host.inbox, host.cursor, m);
      }
      if Distinct(host.inbox) {
        DistinctUnbound(host.inbox, host.cursor, host.completedEver, m);
      }
    }
  }

  lemma BoundReaches(inbox: Inbox, cursor: Option<Mark>, m: Mark)
    requires BoundAt(inbox, cursor, m)
    ensures Reached(cursor) <= m.pos
  {
  }

  method ServeOne(host: Host, calls: seq<Call>, n: nat, ghost done: set<Delivery>) returns (reply: Reply)
    requires host.Valid() && n < |calls| && done <= host.completedEver
    modifies host
    ensures host.Valid() && host.Forward()
    ensures calls[n].Deliver? && AcceptsAll(reply, calls[n].d) ==>
              calls[n].d in host.completedEver && calls[n].d.next.pos <= Reached(host.cursor)
    ensures Stable(calls) && Distinct(old(host.inbox)) && Sent(calls[..n], old(host.inbox)) ==>
              Distinct(host.inbox) && Sent(calls[..n+1], host.inbox)
    ensures calls[n].Deliver? && AcceptsAll(reply, calls[n].d) ==> forall m :: !CompletedTwice(done, m)
    ensures old(host.Clogged()) ==> host.Clogged() && host.cursor == old(host.cursor)
    ensures Shut(calls[n]) ==>
              && host.completedEver == old(host.completedEver) && host.cursor == old(host.cursor)
              && host.inbox.Keys <= old(host.inbox.Keys) && (calls[n].Deliver? ==> reply == Retry)
  {
    hide Stable, Sent, Distinct, Fits, OnlyAdds, CompletedTwice, OneEach, Sound, CloggedAt;
    reply := Dead;
    ghost var before := host.inbox;
    SoundNamed(before, host.cursor, host.completedEver);
    match calls[n] {
    case Deliver(d, open, results) =>
      if Stable(calls) && Sent(calls[..n], before) {
        SentFits(calls, n, before);
      }
      reply := host.OnInboundV2(d, open, results);
      assert AcceptsAll(reply, d) ==> host.Committed(d);
      SoundRecalls(host.inbox, host.cursor, host.completedEver, d);
      NotTwice(host.inbox, host.cursor, host.completedEver, done);
    case Finalize(d, materializes) =>
      var _ := host.OnInboundFinalizeV1(d, materializes);
    case Stage(id) =>
      host.Stage(id);
    case Restart(script) =>
      host.Restart(script);
    }
    if Sent(calls[..n], before) {
      SentGrows(calls, n, before, host.inbox);
    }
  }

  lemma NotTwice(inbox: Inbox, cursor: Option<Mark>, done: set<Delivery>, before: set<Delivery>)
    requires Sound(inbox, cursor, done) && before <= done
    ensures OneEach(inbox) ==> forall m :: !CompletedTwice(before, m)
  {
    hide Sound, BoundAt, CompletedTwice, OneEach;
    UnboundIffOneEach(inbox, cursor, done);
    forall m | CompletedTwice(before, m) ensures BoundAt(inbox, cursor, m) {
      TwiceGrows(before, done, inbox, cursor, m);
    }
  }

  /** A one-event delivery on a fresh stream, and an importer that answers nothing at all. */
  method ShortAnswer() returns (host: Host, d: Delivery, reply: Reply)
    ensures fresh(host) && reply == Answered([]) && !HasCompleted(host.inbox, d)
  {
    hide Sound;
    host := new Host();
    d := Delivery(1, Mark(0, 0), Mark(1, 1), false);
    reply := host.OnInboundV2(d, true, []);
    assert Dispositions([], true) == [];
  }

  // ---------------------------------------------------------------- an open stream goes on

  /** There is room, or a delivery that follows the cursor is already held. */
  ghost predicate Roomy(inbox: Inbox, cursor: Option<Mark>) {
    |inbox| < MAX_DELIVERIES || exists id :: id in inbox && Follows(cursor, inbox[id].delivery)
  }

  /** Nothing waits, and the next delivery can be let in. */
  ghost predicate Settled(inbox: Inbox, cursor: Option<Mark>) {
    OneEach(inbox) && NothingWaits(inbox) && Roomy(inbox, cursor)
  }

  /** A completion that waits right after the cursor can be answered again, and takes the cursor with it. */
  lemma WaitingIsReady(inbox: Inbox, cursor: Option<Mark>, done: set<Delivery>, id: nat, stagedFiles: set<nat>)
    requires Sound(inbox, cursor, done) && OneEach(inbox) && id in inbox && inbox[id].completed
    requires inbox[id].Pending() && Follows(cursor, inbox[id].delivery)
    ensures var d := inbox[id].delivery; Authentic(d) && Deliverable(inbox, cursor, d) && Admissible(inbox, stagedFiles, d)
    ensures HasCompleted(inbox, inbox[id].delivery) && Reached(cursor) < inbox[id].delivery.next.pos
  {
    hide Covered, Kept, Recalls;
  }

  /** So can the completion under the cursor, when none waits beyond it. */
  lemma LandedIsReady(inbox: Inbox, cursor: Option<Mark>, done: set<Delivery>, id: nat, stagedFiles: set<nat>)
    requires Sound(inbox, cursor, done) && OneEach(inbox) && NoneAhead(inbox, cursor)
    requires id in inbox && inbox[id].completed && cursor == Some(inbox[id].delivery.next)
    ensures var d := inbox[id].delivery; Authentic(d) && Deliverable(inbox, cursor, d) && Admissible(inbox, stagedFiles, d)
    ensures HasCompleted(inbox, inbox[id].delivery)
    ensures inbox[id].delivery.id == id && forall k :: k in inbox && inbox[k].Pending() ==> k == id
  {
    hide Covered, Kept, Recalls;
    forall k: nat | k in inbox && inbox[k].Pending() ensures k == id {
      assert SamePosition(inbox, k, id);
    }
  }

  ghost predicate NoneAhead(inbox: Inbox, cursor: Option<Mark>) {
    forall id :: id in inbox && inbox[id].Pending() ==> !Follows(cursor, inbox[id].delivery)
  }

  /** What a pruning that succeeded leaves of an inbox that was not clogged. */
  lemma PrunedIsRoomy(before: Inbox, after: Inbox, cursor: Option<Mark>, m: Mark, done: set<Delivery>)
    requires Sound(before, cursor, done) && NoneAhead(before, cursor) && !CloggedAt(before, cursor)
    requires cursor == Some(m) && Trimmed(before, after, m.pos) && Spent(after, m) == {}
    ensures Roomy(after, cursor)
  {
    hide Covered, Kept, Recalls, OnePending;
    assert after.Keys <= before.Keys;
    assert |after| == |after.Keys| && |before| == |before.Keys|;
    if |before| < MAX_DELIVERIES {
      SubsetSize(after.Keys, before.Keys);
    } else {
      var id :| id in before && (Follows(cursor, before[id].delivery) || Behind(before[id], cursor));
      if Behind(before[id], cursor) {
        assert id in after ==> id in Spent(after, m);
        SubsetSize(after.Keys, before.Keys - {id});
      } else {
        assert Authentic(before[id].delivery);
        assert id in after;
      }
    }
  }

  /** A delivery that follows the cursor of a settled stream is ready, new and without a rival. */
  lemma NextIsReady(inbox: Inbox, cursor: Option<Mark>, done: set<Delivery>, d: Delivery, stagedFiles: set<nat>)
    requires Sound(inbox, cursor, done) && OneEach(inbox) && NothingWaits(inbox) && Authentic(d) && Follows(cursor, d)
    requires if d.id in inbox then inbox[d.id].delivery == d else |inbox| < MAX_DELIVERIES
    requires d.staged ==> d.id in stagedFiles
    ensures Deliverable(inbox, cursor, d) && Admissible(inbox, stagedFiles, d) && Unrivalled(inbox, d) && !HasCompleted(inbox, d)
    ensures Reached(cursor) < d.next.pos
  {
    hide Covered, Kept, Recalls, OnePending;
  }

  lemma {:induction false} SomeAbove(ids: set<nat>) returns (n: nat)
    ensures forall id :: id in ids ==> id < n
    decreases ids
  {
    n := 0;
    if ids != {} {
      var a :| a in ids;
      n := SomeAbove(ids - {a});
      n := if a < n then n else a + 1;
      assert forall id :: id in ids ==> id == a || id in ids - {a};
    }
  }

  /** The next delivery for a settled stream: one it already holds, or a new one. */
  method NextDelivery(host: Host) returns (d: Delivery)
    requires host.Valid() && Roomy(host.inbox, host.cursor)
    ensures Authentic(d) && Follows(host.cursor, d)
    ensures if d.id in host.inbox then host.inbox[d.id].delivery == d else |host.inbox| < MAX_DELIVERIES
  {
    SoundKept(host.inbox, host.cursor, host.completedEver);
    hide Sound;
    if id: nat :| id in host.inbox && Follows(host.cursor, host.inbox[id].delivery) {
      return host.inbox[id].delivery;
    }
    ghost var n := SomeAbove(host.inbox.Keys);
    assert n !in host.inbox;
    var id: nat :| id !in host.inbox;
    var from := if host.cursor.Some? then host.cursor.value else Mark(0, 0);
    d := Delivery(id, from, Mark(from.token + 1, from.pos + 1), false);
  }

  function AllApplied(d: Delivery): (results: seq<ImportOutcome>)
    requires Authentic(d)
    ensures Terminal(d, results) && DeferredNeedsBaseline !in results
  {
    seq(d.Span(), i => Applied)
  }

  /** One delivery past the cursor of a settled stream. */
  method TakeNext(host: Host) returns (d: Delivery, reply: Reply)
    requires host.Valid() && host.fates == [] && Settled(host.inbox, host.cursor)
    modifies host
    ensures host.Valid() && host.Forward()
    ensures AcceptsAll(reply, d) && Reached(old(host.cursor)) < d.next.pos
  {
    d := NextDelivery(host);
    hide Sound, Follows, OneEach, NothingWaits, AcceptsAll;
    if d.staged {
      host.Stage(d.id);
    }
    reply := TakeThis(host, d);
  }

  method TakeThis(host: Host, d: Delivery) returns (reply: Reply)
    requires host.Valid() && host.fates == [] && OneEach(host.inbox) && NothingWaits(host.inbox)
    requires Authentic(d) && Follows(host.cursor, d) && (d.staged ==> d.id in host.stagedFiles)
    requires if d.id in host.inbox then host.inbox[d.id].delivery == d else |host.inbox| < MAX_DELIVERIES
    modifies host
    ensures host.Valid() && host.Forward()
    ensures AcceptsAll(reply, d) && Reached(old(host.cursor)) < d.next.pos
  {
    hide Sound, Follows, OneEach, NothingWaits, Unrivalled, Deliverable, Admissible, Dispositions, Trimmed, Retains, OnlyAdds;
    NextIsReady(host.inbox, host.cursor, host.completedEver, d, host.stagedFiles);
    var results := AllApplied(d);
    reply := host.OnInboundV2(d, true, results);
  }

  /** Answers again the completion under the cursor, which prunes what is behind it, and finalizes it. */
  method Settle(host: Host, id: nat)
    requires host.Valid() && host.fates == [] && OneEach(host.inbox) && NoneAhead(host.inbox, host.cursor) && !host.Clogged()
    requires id in host.inbox && host.inbox[id].completed && host.cursor == Some(host.inbox[id].delivery.next)
    modifies host
    ensures host.Valid() && host.Forward() && host.fates == [] && host.cursor == old(host.cursor)
    ensures Settled(host.inbox, host.cursor)
  {
    hide Sound, OneEach, Deliverable, Admissible, Retains, OnlyAdds, CloggedAt, NoneAhead, Spent;
    ghost var before := host.inbox;
    var d := host.inbox[id].delivery;
    LandedIsReady(before, host.cursor, host.completedEver, id, host.stagedFiles);
    var _ := host.OnInboundV2(d, true, []);
    PrunedIsRoomy(before, host.inbox, host.cursor, d.next, host.completedEver);
    ghost var pruned := host.inbox;
    var _ := host.OnInboundFinalizeV1(d, true);
    FinalizedSettles(before, pruned, host.inbox, host.cursor, d);
  }

  lemma FinalizedSettles(before: Inbox, pruned: Inbox, after: Inbox, cursor: Option<Mark>, d: Delivery)
    requires Trimmed(before, pruned, d.next.pos) && Roomy(pruned, cursor) && HasCompleted(pruned, d)
    requires forall k :: k in before && before[k].Pending() ==> k == d.id
    requires after == pruned || after == pruned[d.id := Record(d, true, true)]
    requires after[d.id].finalized
    ensures NothingWaits(after) && Roomy(after, cursor)
  {
    assert after.Keys == pruned.Keys;
    assert |after| == |after.Keys| && |pruned| == |pruned.Keys|;
    if id: nat :| id in pruned && Follows(cursor, pruned[id].delivery) {
      assert id in after && Follows(cursor, after[id].delivery);
    }
  }

  /** A stream that is open goes on: after a restart without trouble there is a schedule that accepts a
      delivery past the cursor. */
  method GoOn(host: Host) returns (d: Delivery, reply: Reply)
    requires host.Valid() && Open(host)
    modifies host
    ensures host.Valid() && host.Forward()
    ensures AcceptsAll(reply, d) && Reached(old(host.cursor)) < d.next.pos
  {
    hide Sound, OneEach, Deliverable, Admissible, Retains, OnlyAdds, CloggedAt, Trimmed, Spent;
    assert Unbound(host.inbox, host.cursor) by {
      forall m ensures !BoundAt(host.inbox, host.cursor, m) {
        assert !host.StuckOn(m);
      }
    }
    UnboundIffOneEach(host.inbox, host.cursor, host.completedEver);
    host.Restart([]);
    if id: nat :| id in host.inbox && host.inbox[id].Pending() && Follows(host.cursor, host.inbox[id].delivery) {
      d := host.inbox[id].delivery;
      WaitingIsReady(host.inbox, host.cursor, host.completedEver, id, host.stagedFiles);
      reply := host.OnInboundV2(d, true, []);
      return;
    }
    if host.cursor.Some? {
      CursorKept(host.inbox, host.cursor, host.completedEver);
      var id: nat :| id in host.inbox && host.inbox[id].completed && host.cursor == Some(host.inbox[id].delivery.next);
      Settle(host, id);
    } else {
      StartIsSettled(host.inbox, host.completedEver);
    }
    d, reply := TakeNext(host);
  }

  lemma CursorKept(inbox: Inbox, cursor: Option<Mark>, done: set<Delivery>)
    requires Sound(inbox, cursor, done) && cursor.Some?
    ensures exists id: nat :: id in inbox && inbox[id].completed && cursor == Some(inbox[id].delivery.next)
  {
    var id: nat :| id in inbox && inbox[id].completed && inbox[id].delivery.next == cursor.value;
    assert cursor == Some(inbox[id].delivery.next);
  }

  lemma StartIsSettled(inbox: Inbox, done: set<Delivery>)
    requires Sound(inbox, None, done) && NoneAhead(inbox, None) && !CloggedAt(inbox, None)
    ensures NothingWaits(inbox) && Roomy(inbox, None)
  {
    hide Recalls;
  }

  // ---------------------------------------------------------------- two streams that cannot go on

  /** The delivery that a relay sends again and again, each time under a new id. */
  function Attempt(id: nat): Delivery { Delivery(id, Mark(0, 0), Mark(1, 1), false) }

  lemma FreshIsReady(d: Delivery, stagedFiles: set<nat>)
    requires Authentic(d) && d.pred.pos == 0 && !d.staged
    ensures Deliverable(map[], None, d) && Admissible(map[], stagedFiles, d) && Unrivalled(map[], d) && !HasCompleted(map[], d)
  {
  }

  /** With one completed delivery in the inbox, a second one for the same marks is let in as its rival. */
  lemma RivalIsReady(inbox: Inbox, cursor: Option<Mark>, done: set<Delivery>, a: Delivery, b: Delivery, stagedFiles: set<nat>)
    requires Sound(inbox, cursor, done) && OnlyAdds(map[], inbox, a) && HasCompleted(inbox, a) && cursor == Some(a.next)
    requires b.id != a.id && b.next == a.next && !b.staged
    ensures Deliverable(inbox, cursor, b) && Admissible(inbox, stagedFiles, b) && !HasCompleted(inbox, b) && !Unrivalled(inbox, b)
  {
    assert forall id :: id in inbox ==> inbox[id].delivery.id == id;
    assert inbox.Keys == {a.id};
    assert |inbox| == |inbox.Keys|;
  }

  /** A second delivery for marks already completed binds the stream there. */
  method CompletedAgain() returns (host: Host, replies: seq<Reply>)
    ensures fresh(host) && host.Valid()
    ensures replies == [Answered([Accepted]), Retry]
    ensures host.StuckOn(Mark(1, 1)) && CompletedTwice(host.completedEver, Mark(1, 1))
  {
    hide Sound, Deliverable, Admissible, Unrivalled, BoundAt, OnlyAdds, CompletedTwice, OneEach, Retains, Trimmed, CloggedAt;
    host := new Host();
    var a := Attempt(1);
    FreshIsReady(a, {});
    QuietIff(a, [Applied]);
    var first := host.OnInboundV2(a, true, [Applied]);
    assert seq(1, i => Accepted) == [Accepted];
    var b := Attempt(2);
    RivalIsReady(host.inbox, host.cursor, host.completedEver, a, b, host.stagedFiles);
    QuietIff(b, [Applied]);
    var second := host.OnInboundV2(b, true, [Applied]);
    replies := [first, second];
    BoundIffCompletedTwice(host.inbox, host.cursor, host.completedEver, Mark(1, 1));
  }

  /** The inbox holds the attempts from `lo` to before `hi` and nothing else. */
  ghost predicate Attempts(inbox: Inbox, lo: nat, hi: nat) {
    && |inbox| == hi - lo
    && (forall id: nat :: id in inbox <==> lo <= id < hi)
    && forall id :: id in inbox ==> inbox[id].delivery == Attempt(id)
  }

  lemma UntriedIsReady(inbox: Inbox, cursor: Option<Mark>, lo: nat, hi: nat, id: nat, stagedFiles: set<nat>)
    requires Sound(inbox, cursor, {}) && Attempts(inbox, lo, hi) && lo <= hi && hi - lo < MAX_DELIVERIES && !(lo <= id < hi)
    ensures Deliverable(inbox, cursor, Attempt(id)) && Admissible(inbox, stagedFiles, Attempt(id))
    ensures Unrivalled(inbox, Attempt(id)) && !HasCompleted(inbox, Attempt(id))
  {
    assert cursor == None;
  }

  lemma AttemptKept(before: Inbox, after: Inbox, lo: nat, hi: nat, id: nat, p: nat)
    requires WellKept(before, {}) && Attempts(before, lo, hi) && Named(after)
    requires OnlyAdds(before, after, Attempt(id)) && Has(after, Attempt(id)) && Retains(before, after, p)
    requires id == hi || id + 1 == lo
    ensures Attempts(after, if id == hi then lo else id, if id == hi then hi + 1 else hi)
  {
    assert forall k :: k in before ==> !before[k].completed;
    forall k ensures k in after <==> k in before || k == id {
      assert k in after ==> after[k].delivery.id == k;
    }
    assert after.Keys == before.Keys + {id};
    assert |after| == |after.Keys| && |before| == |before.Keys|;
  }

  lemma SoundKept(inbox: Inbox, cursor: Option<Mark>, done: set<Delivery>)
    requires Sound(inbox, cursor, done)
    ensures WellKept(inbox, done) && Named(inbox)
  {
  }

  /** The inbox is full of attempts, and only the first of them was ever completed. */
  lemma FullOfAttempts(inbox: Inbox, cursor: Option<Mark>, done: set<Delivery>)
    requires Sound(inbox, cursor, done) && done == {Attempt(1)} && cursor == Some(Mark(1, 1))
    requires Attempts(inbox, 1, MAX_DELIVERIES + 1)
    ensures CloggedAt(inbox, cursor) && OneEach(inbox)
    ensures forall id :: id in inbox && id != 1 ==> !inbox[id].completed
  {
    assert forall id :: id in inbox ==> inbox[id].delivery.id == id;
  }

  /** Attempts that are never applied fill the inbox; the one that is applied leaves no room for a successor,
      although it is finalized and no mark was completed twice. */
  method FillTheInbox() returns (host: Host, accepted: bool)
    ensures fresh(host) && host.Valid() && accepted
    ensures host.Clogged() && NothingWaits(host.inbox) && forall m :: !host.StuckOn(m)
  {
    hide Sound, Unrivalled, BoundAt, CompletedTwice, OneEach, CloggedAt, Attempts;
    host := new Host();
    NoAttempts();
    for id := 2 to MAX_DELIVERIES + 1
      invariant host.Valid() && host.completedEver == {} && host.fates == [] && Attempts(host.inbox, 2, id)
    {
      TryAttempt(host, 2, id, id, [Retryable]);
    }
    TryAttempt(host, 2, MAX_DELIVERIES + 1, 1, [Applied]);
    FullOfAttempts(host.inbox, host.cursor, host.completedEver);
    accepted := host.OnInboundFinalizeV1(Attempt(1), true);
    UnboundIffOneEach(host.inbox, host.cursor, host.completedEver);
  }

  method TryAttempt(host: Host, lo: nat, hi: nat, id: nat, results: seq<ImportOutcome>)
    requires host.Valid() && host.completedEver == {} && host.fates == [] && Attempts(host.inbox, lo, hi)
    requires 1 <= lo <= hi <= MAX_DELIVERIES + 1 && hi - lo < MAX_DELIVERIES && (id == hi || id + 1 == lo)
    requires |results| == 1 && results[0] in {Applied, Retryable}
    modifies host
    ensures host.Valid() && host.fates == []
    ensures host.completedEver == if results == [Applied] then {Attempt(id)} else {}
    ensures Attempts(host.inbox, if id == hi then lo else id, if id == hi then hi + 1 else hi)
    ensures results == [Applied] ==> host.cursor == Some(Mark(1, 1)) && HasCompleted(host.inbox, Attempt(id))
  {
    hide Sound, Deliverable, Admissible, Unrivalled, BoundAt, OnlyAdds, CompletedTwice, OneEach, Retains, Trimmed, CloggedAt,
         Attempts, NothingWaits, WellKept, Named, Spent;
    ghost var before, from := host.inbox, host.cursor;
    SoundKept(before, from, {});
    UntriedIsReady(before, from, lo, hi, id, host.stagedFiles);
    var _ := host.OnInboundV2(Attempt(id), true, results);
    SoundKept(host.inbox, host.cursor, host.completedEver);
    AttemptKept(before, host.inbox, lo, hi, id, Reached(host.cursor));
    assert Terminal(Attempt(id), results) <==> results == [Applied];
    if results == [Applied] {
      SoundRecalls(host.inbox, host.cursor, host.completedEver, Attempt(id));
    }
  }

  lemma NoAttempts()
    ensures Attempts(map[], 2, 2)
  {
  }
}
