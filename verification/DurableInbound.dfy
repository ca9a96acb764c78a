/** The durable inbound handler: an ordered commit protocol that survives crashes and redelivery.

    Every operation that touches the disk or the plugin takes its fate from a script, so each contract
    holds wherever an operation fails, fails after taking effect, or the process dies. */
module DurableInbound {
  import opened Options
  import opened RemoteBackfill
  import opened InboundAck
  import opened InboxState

  /** An operation works, takes effect but reports failure, fails, or never returns. */
  datatype Fate = Works | Slips | Fails | Dies
  {
    predicate TookEffect() { Works? || Slips? }
  }

  datatype End = Done | Refused | Died

  function EndOf(f: Fate): End {
    match f
    case Works => Done
    case Slips => Refused
    case Fails => Refused
    case Dies => Died
  }

  /** What a call answers: nothing (the process died), a retry, or one outcome for each imported event. */
  datatype Reply = Dead | Retry | Answered(outcomes: seq<Disposition>)

  function Halted(e: End): Reply { if e.Died? then Dead else Retry }

  predicate AcceptsAll(r: Reply, d: Delivery) {
    r.Answered? && |r.outcomes| == d.Span() && forall i :: 0 <= i < |r.outcomes| ==> r.outcomes[i] == Accepted
  }

  /** Records only leave the inbox, and only finalized ones the cursor has passed. */
  ghost predicate Trimmed(before: Inbox, after: Inbox, upTo: nat) {
    && (forall id :: id in after ==> id in before && before[id] == after[id])
    && (forall id :: id in before && id !in after ==>
          before[id].completed && before[id].finalized && before[id].delivery.next.pos < upTo)
  }

  /** What left the inbox is no newer than what is still to leave. */
  ghost predicate OldestFirst(before: Inbox, after: Inbox, m: Mark) {
    forall a, b :: a in before && a !in after && b in Spent(after, m) ==>
      before[a].delivery.next.pos <= after[b].delivery.next.pos
  }

  lemma NoneLeft(inbox: Inbox, m: Mark)
    ensures OldestFirst(inbox, inbox, m)
  {
  }

  lemma OldestGoes(before: Inbox, was: Inbox, after: Inbox, m: Mark, todo: set<nat>)
    requires Trimmed(before, was, m.pos) && OldestFirst(before, was, m) && todo == Spent(was, m)
    requires after == was || exists id :: id in todo && First(was, todo, id) && after == was - {id}
    ensures OldestFirst(before, after, m)
  {
    forall a, b | a in before && a !in after && b in Spent(after, m)
      ensures before[a].delivery.next.pos <= after[b].delivery.next.pos
    {
      assert b in Spent(was, m);
    }
  }

  /** The cursor stays, or takes the one step to the completion that waits. */
  ghost predicate Stepped(inbox: Inbox, before: Option<Mark>, after: Option<Mark>) {
    after == before
    || exists id :: id in inbox && inbox[id].Pending() && Follows(before, inbox[id].delivery) && after == Some(inbox[id].delivery.next)
  }

  lemma TrimmedFurther(a: Inbox, b: Inbox, c: Inbox, p: nat, q: nat)
    requires Trimmed(a, b, p) && Trimmed(b, c, q) && p <= q
    ensures Trimmed(a, c, q)
  {
  }

  lemma OneEachTrimmed(a: Inbox, b: Inbox, p: nat)
    requires Trimmed(a, b, p) && OneEach(a)
    ensures OneEach(b)
  {
    forall x: nat, y: nat | SamePosition(b, x, y) ensures x == y {
      assert SamePosition(a, x, y);
    }
  }

  function AllCompleted(inbox: Inbox): set<nat> { set id | id in inbox && inbox[id].completed }

  /** Every completion outside `todo` lies at or before `upTo`. */
  ghost predicate ReachedAllBut(inbox: Inbox, todo: set<nat>, upTo: nat) {
    forall id :: id in inbox && inbox[id].completed && id !in todo ==> inbox[id].delivery.next.pos <= upTo
  }

  lemma NoneVisited(items: Inbox, upTo: nat)
    ensures ReachedAllBut(items, AllCompleted(items), upTo)
  {
  }

  lemma ReachedGrows(items: Inbox, todo: set<nat>, id: nat, p: nat, q: nat)
    requires ReachedAllBut(items, todo, p) && p <= q
    requires id in items && items[id].delivery.next.pos <= q
    ensures ReachedAllBut(items, todo - {id}, q)
  {
  }

  lemma ReachedTrimmed(items: Inbox, inbox: Inbox, upTo: nat)
    requires ReachedAllBut(items, {}, upTo) && Trimmed(items, inbox, upTo)
    ensures ReachedAllBut(inbox, {}, upTo)
  {
  }

  lemma StillThere(items: Inbox, done: set<Delivery>, inbox: Inbox, d: Delivery, p: nat)
    requires WellKept(items, done) && Trimmed(items, inbox, p) && HasCompleted(items, d)
    ensures Authentic(d) && (d.next.pos < p || HasCompleted(inbox, d)) && Trimmed(inbox, inbox, p)
  {
  }

  /** At most one completion waits, so the cursor cannot step twice. */
  lemma SteppedOnce(items: Inbox, done: set<Delivery>, inbox: Inbox, p: nat, c0: Option<Mark>, c1: Option<Mark>, c2: Option<Mark>)
    requires WellKept(items, done) && OnePending(items) && Trimmed(items, inbox, p)
    requires Stepped(items, c0, c1) && Stepped(inbox, c1, c2)
    ensures Stepped(items, c0, c2)
  {
  }

  /** The importer answered for every event, and each was applied, already held, or skipped. */
  predicate Terminal(d: Delivery, results: seq<ImportOutcome>) {
    |results| == d.Span() && forall i :: 0 <= i < |results| ==> results[i] in {Applied, Deduped, Skipped}
  }

  predicate NoneRetried(results: seq<ImportOutcome>) {
    forall i :: 0 <= i < |results| ==> results[i] in {Applied, Deduped, Skipped}
  }

  /** Results that none would retry are terminal unless there are too few or too many of them. */
  lemma QuietIff(d: Delivery, results: seq<ImportOutcome>)
    ensures RetryLater !in Dispositions(results, true) <==> NoneRetried(results)
    ensures Terminal(d, results) <==> |results| == d.Span() && NoneRetried(results)
    ensures Terminal(d, results) ==> Dispositions(results, true) == seq(d.Span(), i => Accepted)
  {
    DurableTerminalIff(|results|, results);
  }

  /** The delivery is at the cursor or next, under the id it was admitted with, and nothing is in its way. */
  ghost predicate Deliverable(inbox: Inbox, cursor: Option<Mark>, d: Delivery) {
    && OneEach(inbox) && (d.id in inbox ==> inbox[d.id].delivery == d)
    && PendingEndAt(inbox, d.next) && (Landed(cursor, d) || Follows(cursor, d))
  }

  /** No other delivery is completed to the position where `d` ends. */
  ghost predicate Unrivalled(inbox: Inbox, d: Delivery) {
    forall id :: id in inbox && inbox[id].completed && inbox[id].delivery.next.pos == d.next.pos ==> id == d.id
  }

  /** A completed delivery with a rival binds the stream where both end. */
  lemma RivalBinds(inbox: Inbox, cursor: Option<Mark>, done: set<Delivery>, d: Delivery)
    requires Sound(inbox, cursor, done) && HasCompleted(inbox, d) && !Unrivalled(inbox, d)
    ensures BoundAt(inbox, cursor, d.next)
  {
    hide Covered, Kept, Placed, OnePending, Remembered;
    var id :| id in inbox && inbox[id].completed && inbox[id].delivery.next.pos == d.next.pos && id != d.id;
    assert inbox[id].delivery in done && d in done && inbox[id].delivery.id == id;
    assert CompletedTwice(done, d.next);
  }

  /** The inbox is full, it holds no delivery that follows the cursor, and pruning can free nothing. */
  predicate CloggedAt(inbox: Inbox, cursor: Option<Mark>) {
    && |inbox| >= MAX_DELIVERIES
    && forall id :: id in inbox ==> !Follows(cursor, inbox[id].delivery) && !Behind(inbox[id], cursor)
  }

  predicate Behind(r: Record, cursor: Option<Mark>) {
    r.completed && r.finalized && r.delivery.next.pos < Reached(cursor)
  }

  lemma CloggedRepair(i0: Inbox, c0: Option<Mark>, i1: Inbox, c1: Option<Mark>)
    requires CloggedAt(i0, c0) && Trimmed(i0, i1, Reached(c1)) && Stepped(i0, c0, c1)
    ensures i1 == i0 && c1 == c0
  {
    assert i1.Keys == i0.Keys;
  }

  lemma CloggedUpdate(inbox: Inbox, cursor: Option<Mark>, id: nat, r: Record)
    requires CloggedAt(inbox, cursor) && id in inbox && inbox[id].delivery == r.delivery
    requires r.finalized ==> r.delivery.next.pos >= Reached(cursor)
    ensures CloggedAt(inbox[id := r], cursor)
  {
    assert inbox[id := r].Keys == inbox.Keys;
    assert |inbox[id := r]| == |inbox[id := r].Keys| && |inbox| == |inbox.Keys|;
  }

  /** No delivery is lost but those pruned behind the cursor. */
  ghost predicate Retains(before: Inbox, after: Inbox, upTo: nat) {
    forall id :: id in before ==>
      || (id in after && after[id].delivery == before[id].delivery)
      || (before[id].completed && before[id].finalized && before[id].delivery.next.pos < upTo)
  }

  /** What is finalized was so before. */
  ghost predicate KeepsFinal(before: Inbox, after: Inbox) {
    forall id :: id in before && id in after && after[id].finalized ==> before[id].completed && before[id].finalized
  }

  lemma RetainsItself(a: Inbox, d: Delivery, p: nat)
    ensures Retains(a, a, p) && OnlyAdds(a, a, d)
  {
  }

  lemma LetInRetains(a: Inbox, b: Inbox, c: Inbox, d: Delivery, p: nat)
    requires Trimmed(a, b, p)
    requires WellFlagged(a)
    requires c == b || (d.id !in b && c == b[d.id := Record(d, false, false)])
    ensures Retains(a, c, p) && KeepsFinal(a, c) && OnlyAdds(a, c, d)
  {
  }

  predicate WellFlagged(inbox: Inbox) { forall id :: id in inbox && inbox[id].finalized ==> inbox[id].completed }

  lemma CloggedFull(inbox: Inbox, cursor: Option<Mark>)
    requires CloggedAt(inbox, cursor)
    ensures |inbox| >= MAX_DELIVERIES
  {
  }

  lemma CompleteRetains(a: Inbox, b: Inbox, c: Inbox, cursor: Option<Mark>, d: Delivery, p: nat)
    requires Retains(a, b, p) && KeepsFinal(a, b) && OnlyAdds(a, b, d)
    requires c == b || (d.id in b && b[d.id].delivery == d && c == b[d.id := Record(d, true, false)])
    ensures Retains(a, c, p) && KeepsFinal(a, c) && OnlyAdds(a, c, d)
    ensures CloggedAt(b, cursor) ==> CloggedAt(c, cursor)
  {
    if CloggedAt(b, cursor) && c != b {
      CloggedUpdate(b, cursor, d.id, Record(d, true, false));
    }
  }

  lemma CommitRetains(a: Inbox, b: Inbox, c: Inbox, c0: Option<Mark>, c1: Option<Mark>, d: Delivery)
    requires Retains(a, b, Reached(c0)) && KeepsFinal(a, b) && Trimmed(b, c, Reached(c1)) && Reached(c0) <= Reached(c1)
    requires c1 == c0 || (Has(b, d) && Follows(c0, d))
    ensures Retains(a, c, Reached(c1))
    ensures CloggedAt(b, c0) ==> CloggedAt(c, c1) && c1 == c0
  {
    if CloggedAt(b, c0) {
      assert c1 == c0 && c.Keys == b.Keys;
      assert c == b;
    }
  }

  /** It was completed before, or there is room for it and its body has arrived. */
  predicate Admissible(inbox: Inbox, stagedFiles: set<nat>, d: Delivery) {
    HasCompleted(inbox, d) || ((d.id in inbox || |inbox| < MAX_DELIVERIES) && (d.staged ==> d.id in stagedFiles))
  }

  lemma StillReady(i0: Inbox, c0: Option<Mark>, i1: Inbox, c1: Option<Mark>, done: set<Delivery>, stagedFiles: set<nat>, d: Delivery)
    requires Tidy(i0, c0, done) && Authentic(d)
    requires Trimmed(i0, i1, Reached(c1)) && Stepped(i0, c0, c1)
    requires Deliverable(i0, c0, d) && Admissible(i0, stagedFiles, d)
    ensures Deliverable(i1, c1, d) && Admissible(i1, stagedFiles, d)
    ensures (HasCompleted(i1, d) <==> HasCompleted(i0, d)) && (Unrivalled(i1, d) <==> Unrivalled(i0, d))
  {
    assert Reached(c1) <= d.next.pos;
    OneEachTrimmed(i0, i1, Reached(c1));
    hide OneEach, Covered, Kept;
    assert i1.Keys <= i0.Keys;
    SubsetSize(i1.Keys, i0.Keys);
    assert |i1| == |i1.Keys| && |i0| == |i0.Keys|;
  }

  lemma {:induction false} SubsetSize(a: set<nat>, b: set<nat>)
    requires a <= b
    ensures |a| <= |b|
    decreases a
  {
    if a != {} {
      var x :| x in a;
      SubsetSize(a - {x}, b - {x});
    }
  }

  lemma AdmitKeepsReady(inbox: Inbox, cursor: Option<Mark>, stagedFiles: set<nat>, d: Delivery)
    requires Deliverable(inbox, cursor, d) && Admissible(inbox, stagedFiles, d) && d.id !in inbox
    ensures Deliverable(inbox[d.id := Record(d, false, false)], cursor, d)
    ensures Admissible(inbox[d.id := Record(d, false, false)], stagedFiles, d)
    ensures Unrivalled(inbox[d.id := Record(d, false, false)], d) <==> Unrivalled(inbox, d)
  {
    OneEachUpdated(inbox, d, Record(d, false, false));
    assert forall id :: id in inbox ==> id in inbox[d.id := Record(d, false, false)];
  }

  lemma RivalsStay(inbox: Inbox, d: Delivery)
    ensures Unrivalled(inbox[d.id := Record(d, true, false)], d) <==> Unrivalled(inbox, d)
  {
    assert forall id :: id in inbox && id != d.id ==> id in inbox[d.id := Record(d, true, false)];
  }

  lemma OneEachUpdated(inbox: Inbox, d: Delivery, r: Record)
    requires OneEach(inbox) && r.delivery == d && (r.completed ==> Unrivalled(inbox, d))
    ensures OneEach(inbox[d.id := r])
  {
    var after := inbox[d.id := r];
    forall a: nat, b: nat | SamePosition(after, a, b) ensures a == b {
      assert a != d.id && b != d.id ==> SamePosition(inbox, a, b);
    }
  }

  lemma RepairKeeps(i0: Inbox, c0: Option<Mark>, i1: Inbox, c1: Option<Mark>, done: set<Delivery>, d: Delivery)
    requires Sound(i0, c0, done) && Trimmed(i0, i1, Reached(c1)) && Stepped(i0, c0, c1)
    ensures OnlyAdds(i0, i1, d)
    ensures Distinct(i0) && Fits(i0, d) ==> Distinct(i1) && Fits(i1, d)
  {
  }

  lemma AdmitKeeps(inbox: Inbox, cursor: Option<Mark>, d: Delivery)
    requires d.id !in inbox
    ensures Distinct(inbox) && Fits(inbox, d) ==>
              Distinct(inbox[d.id := Record(d, false, false)]) && Fits(inbox[d.id := Record(d, false, false)], d)
    ensures ClearFor(inbox, cursor, d) ==> ClearFor(inbox[d.id := Record(d, false, false)], cursor, d)
  {
    var after := inbox[d.id := Record(d, false, false)];
    if Distinct(inbox) && Fits(inbox, d) {
      AdmitDistinct(inbox, d, Record(d, false, false));
    }
    if ClearFor(inbox, cursor, d) {
      forall m | BoundAt(after, cursor, m) ensures m == d.next {
        TwiceUpdated(inbox, d.id, Record(d, false, false), m);
        assert PendingEndAt(inbox, m) by {
          forall id | id in inbox && inbox[id].Pending() ensures inbox[id].delivery.next == m {
            assert id in after && after[id].Pending();
          }
        }
        assert BoundAt(inbox, cursor, m);
      }
    }
  }

  lemma SoundPlaced(inbox: Inbox, cursor: Option<Mark>, done: set<Delivery>)
    requires Sound(inbox, cursor, done)
    ensures Placed(inbox, cursor) && Tidy(inbox, cursor, done) && WellFlagged(inbox)
    ensures WellKept(inbox, done) && OnePending(inbox)
  {
  }

  lemma StaysPut(inbox: Inbox, cursor: Option<Mark>)
    ensures Stepped(inbox, cursor, cursor)
  {
  }

  predicate AtOrPast(cursor: Option<Mark>, d: Delivery) {
    cursor.Some? && (cursor.value == d.next || cursor.value.pos > d.next.pos)
  }

  /** A completion the cursor can step to is the one that waits; any other is at or behind the cursor,
      unless its position was completed twice. */
  lemma CompletionPlaced(inbox: Inbox, cursor: Option<Mark>, done: set<Delivery>, d: Delivery)
    requires Sound(inbox, cursor, done) && HasCompleted(inbox, d)
    ensures Follows(cursor, d) ==>
              PendingEndAt(inbox, d.next) && Stepped(inbox, cursor, Some(d.next)) && Reached(cursor) < d.next.pos
    ensures OneEach(inbox) && !Follows(cursor, d) ==> AtOrPast(cursor, d)
  {
    hide Recalls, Covered;
    if cursor.Some? {
      var k: nat :| k in inbox && inbox[k].completed && inbox[k].delivery.next == cursor.value;
      assert d.next.pos == cursor.value.pos ==> SamePosition(inbox, k, d.id);
    }
  }

  lemma AloneUnrivalled(inbox: Inbox, d: Delivery)
    requires HasCompleted(inbox, d) && NoClash(inbox, d.next.pos)
    ensures Unrivalled(inbox, d)
  {
    assert AloneAt(inbox, d.next.pos) && CompletedAt(inbox, d.id, d.next.pos);
    forall id: nat | id in inbox && inbox[id].completed && inbox[id].delivery.next.pos == d.next.pos ensures id == d.id {
      assert CompletedAt(inbox, id, d.next.pos);
    }
  }

  /** What pruning keeps, and what its success rules out. */
  lemma CommitKeeps(before: Inbox, after: Inbox, cursor: Option<Mark>, d: Delivery, pruned: bool)
    requires Trimmed(before, after, d.next.pos)
    requires pruned ==> cursor == Some(d.next) && NoClash(before, d.next.pos) && PendingEndAt(before, d.next) && Placed(before, cursor)
    ensures HasCompleted(before, d) ==> HasCompleted(after, d)
    ensures Distinct(before) ==> Distinct(after)
    ensures Unrivalled(after, d) <==> Unrivalled(before, d)
    ensures pruned ==> OneEach(after) && (HasCompleted(before, d) ==> Unrivalled(before, d))
  {
    if pruned {
      if HasCompleted(before, d) {
        AloneUnrivalled(before, d);
      }
      forall a: nat, b: nat | SamePosition(before, a, b) ensures a == b {
        var p := before[a].delivery.next.pos;
        assert p <= d.next.pos;
        assert AloneAt(before, p) && CompletedAt(before, a, p) && CompletedAt(before, b, p);
      }
      OneEachTrimmed(before, after, d.next.pos);
    }
  }

  predicate NothingWaits(inbox: Inbox) { forall id :: id in inbox ==> !inbox[id].Pending() }

  lemma FinalizeKeeps(inbox: Inbox, cursor: Option<Mark>, done: set<Delivery>, d: Delivery)
    requires Sound(inbox, cursor, done) && HasCompleted(inbox, d) && Landed(cursor, d)
    ensures Sound(inbox[d.id := Record(d, true, true)], cursor, done)
    ensures inbox[d.id].finalized ==> inbox[d.id := Record(d, true, true)] == inbox
    ensures OneEach(inbox) && inbox[d.id].Pending() ==> NothingWaits(inbox[d.id := Record(d, true, true)])
    ensures OneEach(inbox) ==> OneEach(inbox[d.id := Record(d, true, true)])
    ensures Distinct(inbox) ==> Distinct(inbox[d.id := Record(d, true, true)])
  {
    FinalizeSound(inbox, cursor, done, d);
    SoundPlaced(inbox, cursor, done);
    hide Sound, Tidy, WellKept, Placed;
    if OneEach(inbox) {
      FinalizeOneEach(inbox, d);
    }
  }

  lemma FinalizeOneEach(inbox: Inbox, d: Delivery)
    requires OneEach(inbox) && OnePending(inbox) && HasCompleted(inbox, d)
    ensures OneEach(inbox[d.id := Record(d, true, true)])
    ensures inbox[d.id].Pending() ==> NothingWaits(inbox[d.id := Record(d, true, true)])
  {
    var after := inbox[d.id := Record(d, true, true)];
    forall id: nat | id in inbox && id != d.id && inbox[d.id].Pending() ensures !inbox[id].Pending() {
      assert inbox[id].Pending() ==> SamePosition(inbox, id, d.id);
    }
    forall a: nat, b: nat | SamePosition(after, a, b) ensures a == b {
      assert SamePosition(inbox, a, b);
    }
  }

  /** The inbox holds no delivery but those it held before and `d`. */
  ghost predicate OnlyAdds(before: Inbox, after: Inbox, d: Delivery) {
    forall id :: id in after ==>
      after[id].delivery == d || (id in before && before[id].delivery == after[id].delivery)
  }

  lemma OnlyAddsTwice(a: Inbox, b: Inbox, c: Inbox, d: Delivery, upTo: nat)
    requires OnlyAdds(a, b, d) && Trimmed(b, c, upTo)
    ensures OnlyAdds(a, c, d)
  {
  }

  class Host {
    var inbox: Inbox
    var cursor: Option<Mark>
    var stagedFiles: set<nat>
    var repaired: bool
    var fates: seq<Fate>
    /** Every delivery whose completion was ever recorded. */
    ghost var completedEver: set<Delivery>
    /** How many operations have not simply worked. */
    ghost var troubles: nat

    ghost predicate Valid()
      reads this
    {
      Sound(inbox, cursor, completedEver)
    }

    /** History only grows, and the cursor only moves forward. */
    twostate predicate Forward()
      reads this
    {
      old(completedEver) <= completedEver && Reached(old(cursor)) <= Reached(cursor)
    }

    constructor ()
      ensures Valid() && inbox == map[] && cursor == None && completedEver == {} && stagedFiles == {} && fates == []
    {
      inbox, cursor, stagedFiles, repaired, fates := map[], None, {}, false, [];
      completedEver, troubles := {}, 0;
    }

    /** Every operation since then has worked. */
    twostate predicate Untroubled()
      reads this
    {
      troubles == old(troubles)
    }

    /** A process that died has forgotten its repair, one that did not has it still, and success takes that every operation
        worked. */
    twostate predicate Lived(end: End)
      reads this
    {
      (if end.Died? then !repaired else repaired == old(repaired)) && (end == Done ==> Untroubled())
    }

    /** Nothing happened at all. */
    twostate predicate Untouched()
      reads this
    {
      && inbox == old(inbox) && cursor == old(cursor) && stagedFiles == old(stagedFiles)
      && repaired == old(repaired) && fates == old(fates) && completedEver == old(completedEver) && Untroubled()
    }

    /** The fate of the next operation; an exhausted script means no more trouble. */
    method Op() returns (f: Fate)
      modifies this`fates, this`troubles, this`repaired
      ensures f == (if old(fates) == [] then Works else old(fates)[0])
      ensures fates == (if old(fates) == [] then [] else old(fates)[1..])
      ensures troubles == old(troubles) + (if f == Works then 0 else 1)
      ensures if f == Dies then !repaired else repaired == old(repaired)
    {
      f := Works;
      if fates != [] {
        f, fates := fates[0], fates[1..];
        if f == Dies {
          repaired := false;
        }
        if f != Works {
          troubles := troubles + 1;
        }
      }
    }

    // -------------------------------------------------------------- the cursor

    /** The compare-and-swap: from nothing at genesis, from the exact predecessor, or idempotently. */
    method AdvanceCursor(d: Delivery) returns (end: End)
      requires Valid() && HasCompleted(inbox, d) && PendingEndAt(inbox, d.next)
      modifies this`cursor, this`fates, this`troubles, this`repaired
      ensures Valid() && Forward()
      ensures end == Done ==> cursor == Some(d.next)
      ensures cursor == old(cursor) || (Follows(old(cursor), d) && cursor == Some(d.next))
      ensures Lived(end)
      ensures old(fates) == [] && (Landed(old(cursor), d) || Follows(old(cursor), d)) ==> end == Done && fates == []
    {
      hide Placed, OnePending, Covered, Kept, PendingEndAt;
      var f := Op();
      if f != Works {
        return EndOf(f);
      }
      if Landed(cursor, d) {
        return Done;
      }
      if !Follows(cursor, d) {
        return Refused;
      }
      f := Op();
      if f.TookEffect() {
        AdvanceSound(inbox, cursor, completedEver, d);
        cursor := Some(d.next);
      }
      end := EndOf(f);
    }

    /** Restart repair of one completion found in the inbox at the start of the scan. */
    method RepairFromCompleted(d: Delivery) returns (end: End)
      requires Valid() && Authentic(d)
      requires d.next.pos < Reached(cursor) || HasCompleted(inbox, d)
      modifies this`cursor, this`fates, this`troubles, this`repaired
      ensures Valid() && Forward() && Stepped(inbox, old(cursor), cursor)
      ensures end == Done ==> d.next.pos <= Reached(cursor)
      ensures Lived(end)
      ensures old(fates) == [] && OneEach(inbox) ==> end == Done && fates == []
    {
      hide Sound, OneEach, PendingEndAt, Stepped;
      StaysPut(inbox, cursor);
      if HasCompleted(inbox, d) {
        CompletionPlaced(inbox, cursor, completedEver, d);
      }
      var f := Op();
      if f != Works {
        return EndOf(f);
      }
      if AtOrPast(cursor, d) {
        return Done;
      }
      if !Follows(cursor, d) {
        return Refused;
      }
      end := AdvanceCursor(d);
    }

    /** Removes the oldest of the finalized completions behind the cursor. */
    method RemoveOldest(todo: set<nat>) returns (end: End, rest: set<nat>)
      requires Valid() && cursor.Some? && todo == Spent(inbox, cursor.value) && todo != {}
      modifies this`inbox, this`fates, this`troubles, this`repaired
      ensures Valid() && Trimmed(old(inbox), inbox, cursor.value.pos)
      ensures rest <= todo && (end == Done ==> rest < todo && rest == Spent(inbox, cursor.value))
      ensures inbox == old(inbox) || exists id :: id in todo && First(old(inbox), todo, id) && inbox == old(inbox) - {id}
      ensures Lived(end)
      ensures old(fates) == [] ==> end == Done && fates == []
    {
      hide Sound;
      FirstExists(inbox, todo);
      var id :| id in todo && First(inbox, todo, id);
      var f := Op();
      rest := todo - {id};
      if f.TookEffect() {
        PruneSound(inbox, cursor, completedEver, id);
        inbox := inbox - {id};
        assert rest == Spent(inbox, cursor.value);
      }
      end := EndOf(f);
    }

    /** Removes the finalized completions behind the cursor, oldest first. */
    method Prune() returns (end: End)
      requires Valid()
      modifies this`inbox, this`fates, this`troubles, this`repaired
      ensures Valid() && Forward() && Trimmed(old(inbox), inbox, Reached(cursor))
      ensures end == Done ==> cursor.Some? && NoClash(old(inbox), cursor.value.pos) && Spent(inbox, cursor.value) == {}
      ensures cursor.Some? ==> OldestFirst(old(inbox), inbox, cursor.value)
      ensures Lived(end)
      ensures old(fates) == [] ==> fates == [] && !end.Died? && (cursor.Some? && OneEach(old(inbox)) ==> end == Done)
    {
      hide Sound, NoClash, ExactAt, Kept, OneEach, OldestFirst;
      if cursor.Some? {
        NoneLeft(inbox, cursor.value);
      }
      var f := Op();
      if f != Works {
        return EndOf(f);
      }
      if cursor.None? {
        return Refused;
      }
      var ok, todo := PruneCandidates(inbox, cursor.value);
      if OneEach(inbox) {
        OneEachScans(inbox, cursor.value, completedEver);
      }
      if !ok {
        return Refused;
      }
      end := Done;
      while todo != {} && end == Done
        invariant Valid() && (end == Done ==> todo == Spent(inbox, cursor.value))
        invariant Trimmed(old(inbox), inbox, cursor.value.pos) && OldestFirst(old(inbox), inbox, cursor.value)
        invariant Lived(end)
        invariant old(fates) == [] ==> end == Done && fates == []
        modifies this`inbox, this`fates, this`troubles, this`repaired
        decreases todo, end == Done
      {
        ghost var was, ids := inbox, todo;
        end, todo := RemoveOldest(todo);
        OldestGoes(old(inbox), was, inbox, cursor.value, ids);
        TrimmedFurther(old(inbox), was, inbox, cursor.value.pos, cursor.value.pos);
      }
    }

    /** Restart repair: once in each process, every completion found is brought under the cursor. */
    method EnsureRepaired() returns (end: End)
      requires Valid()
      modifies this`inbox, this`cursor, this`fates, this`troubles, this`repaired
      ensures Valid() && Forward() && Trimmed(old(inbox), inbox, Reached(cursor)) && Stepped(old(inbox), old(cursor), cursor)
      ensures (end == Done <==> repaired) && (old(repaired) ==> end == Done) && (end == Done ==> Untroubled())
      ensures end == Done && !old(repaired) ==>
                ReachedAllBut(inbox, {}, Reached(cursor))
      ensures old(fates) == [] && OneEach(old(inbox)) ==> end == Done && fates == []
    {
      hide Sound, ReachedAllBut, OneEach, Tidy, Recalls, Placed, Covered, Kept;
      SoundPlaced(inbox, cursor, completedEver);
      if repaired {
        return Done;
      }
      var f := Op();
      if f != Works {
        return EndOf(f);
      }
      var items := inbox;
      var todo := AllCompleted(items);
      NoneVisited(items, Reached(cursor));
      while todo != {}
        invariant Valid() && Forward() && todo <= AllCompleted(items)
        invariant Trimmed(items, inbox, Reached(cursor)) && Stepped(items, old(cursor), cursor)
        invariant ReachedAllBut(items, todo, Reached(cursor))
        invariant old(fates) == [] && OneEach(items) ==> fates == []
        invariant !repaired && Untroubled()
        modifies this`inbox, this`cursor, this`fates, this`troubles, this`repaired
        decreases todo
      {
        hide Trimmed, Stepped, WellKept, OnePending;
        FirstExists(items, todo);
        var id :| id in todo && First(items, todo, id);
        ghost var at := Reached(cursor);
        end := RepairAndPrune(items, items[id].delivery, old(cursor));
        if end != Done {
          return;
        }
        ReachedGrows(items, todo, id, at, Reached(cursor));
        todo := todo - {id};
      }
      ReachedTrimmed(items, inbox, Reached(cursor));
      repaired := true;
      end := Done;
    }

    /** One turn of the restart scan over the completions `items`. */
    method RepairAndPrune(items: Inbox, d: Delivery, ghost start: Option<Mark>) returns (end: End)
      requires Valid() && WellKept(items, completedEver) && OnePending(items)
      requires Trimmed(items, inbox, Reached(cursor)) && Stepped(items, start, cursor)
      requires HasCompleted(items, d)
      modifies this`inbox, this`cursor, this`fates, this`troubles, this`repaired
      ensures Valid() && Forward()
      ensures Trimmed(items, inbox, Reached(cursor)) && Stepped(items, start, cursor)
      ensures end == Done ==> d.next.pos <= Reached(cursor)
      ensures Lived(end)
      ensures old(fates) == [] && OneEach(items) ==> end == Done && fates == []
    {
      hide Sound, WellKept, Placed, OnePending, OneEach, Stepped, NoClash, Spent, Trimmed, OldestFirst;
      ghost var was, from, p := inbox, cursor, Reached(cursor);
      StillThere(items, completedEver, was, d, p);
      if OneEach(items) {
        OneEachTrimmed(items, was, p);
      }
      end := RepairFromCompleted(d);
      assert OneEach(items) ==> OneEach(inbox);
      SteppedOnce(items, completedEver, was, p, start, from, cursor);
      TrimmedFurther(items, was, was, p, Reached(cursor));
      if end == Done {
        end := Prune();
        TrimmedFurther(items, was, inbox, Reached(cursor), Reached(cursor));
      }
    }

    // -------------------------------------------------------------- one delivery

    /** A successor is let in only after its predecessor's native write is finalized. */
    method FinalizeBarrier(d: Delivery) returns (end: End)
      requires Valid() && Authentic(d)
      modifies this`fates, this`troubles, this`repaired
      ensures end == Done ==> PendingEndAt(inbox, d.next) && (Landed(cursor, d) || Follows(cursor, d))
      ensures end == Done ==> ClearFor(inbox, cursor, d)
      ensures end == Done && cursor.Some? && !Landed(cursor, d) ==> FinalizedAt(inbox, cursor.value)
      ensures Lived(end)
      ensures old(fates) == [] && OneEach(inbox) && PendingEndAt(inbox, d.next) && (Landed(cursor, d) || Follows(cursor, d)) ==>
                end == Done && fates == []
    {
      hide Sound, PendingEndAt, OneEach, AloneAt, Kept, ExactAt, ClearFor, Follows;
      if OneEach(inbox) && PendingEndAt(inbox, d.next) {
        BarrierPasses(inbox, cursor, completedEver, d);
      }
      var f := Op();
      if f != Works {
        return EndOf(f);
      }
      var ok := BarrierScan(inbox, d);
      if !ok {
        return Refused;
      }
      f := Op();
      if f != Works {
        return EndOf(f);
      }
      if Landed(cursor, d) {
        BarrierClears(inbox, cursor, completedEver, d);
        return Done;
      }
      if !Follows(cursor, d) {
        return Refused;
      }
      if cursor.None? {
        BarrierClears(inbox, cursor, completedEver, d);
        return Done;
      }
      f := Op();
      if f != Works {
        return EndOf(f);
      }
      ok := CompletionFinalized(inbox, cursor.value);
      if ok {
        BarrierClears(inbox, cursor, completedEver, d);
      }
      end := if ok then Done else Refused;
    }

    /** Records the delivery before anything is imported, or finds the answer given before. */
    method Admit(d: Delivery) returns (end: End, cached: bool)
      requires Valid() && Authentic(d)
      modifies this`inbox, this`fates, this`troubles, this`repaired
      ensures Valid()
      ensures end == Done ==> Has(inbox, d) && cached == inbox[d.id].completed
      ensures inbox == old(inbox) || (d.id !in old(inbox) && inbox == old(inbox)[d.id := Record(d, false, false)] && !cached)
      ensures PendingEndAt(old(inbox), d.next) ==> PendingEndAt(inbox, d.next)
      ensures ClearFor(old(inbox), cursor, d) ==> ClearFor(inbox, cursor, d)
      ensures inbox != old(inbox) ==> |old(inbox)| < MAX_DELIVERIES
      ensures Distinct(old(inbox)) && Fits(old(inbox), d) ==> Distinct(inbox) && Fits(inbox, d)
      ensures Lived(end)
      ensures old(fates) == [] && (if d.id in old(inbox) then old(inbox)[d.id].delivery == d else |old(inbox)| < MAX_DELIVERIES) ==>
                end == Done && fates == []
    {
      hide Sound, ClearFor, Distinct;
      cached := false;
      var f := Op();
      if f != Works {
        return EndOf(f), false;
      }
      if d.id in inbox {
        if inbox[d.id].delivery != d {
          return Refused, false;
        }
        return Done, inbox[d.id].completed;
      }
      if |inbox| >= MAX_DELIVERIES {
        return Refused, false;
      }
      f := Op();
      if f.TookEffect() {
        AdmitSound(inbox, cursor, completedEver, d);
        AdmitKeeps(inbox, cursor, d);
        inbox := inbox[d.id := Record(d, false, false)];
      }
      end := EndOf(f);
    }

    /** Imports the events; only a full set of accepted outcomes is recorded as a completion. */
    method ImportAndComplete(d: Delivery, results: seq<ImportOutcome>) returns (end: End, ack: seq<Disposition>, terminal: bool)
      requires Valid() && Authentic(d) && Completable(inbox, cursor, d)
      modifies this`inbox, this`fates, this`troubles, this`repaired, this`completedEver
      ensures Valid() && Forward() && PendingEndAt(inbox, d.next)
      ensures inbox == old(inbox) || inbox == old(inbox)[d.id := Record(d, true, false)]
      ensures Distinct(old(inbox)) && Fits(old(inbox), d) ==> Distinct(inbox)
      ensures OneEach(old(inbox)) && Unrivalled(old(inbox), d) ==> OneEach(inbox)
      ensures Unrivalled(inbox, d) <==> Unrivalled(old(inbox), d)
      ensures completedEver == old(completedEver) || (Terminal(d, results) && completedEver == old(completedEver) + {d})
      ensures end == Done ==> ack == Dispositions(results, true) && (terminal <==> |ack| == d.Span() && RetryLater !in ack)
      ensures end == Done ==> (terminal <==> Terminal(d, results)) && (terminal <==> HasCompleted(inbox, d))
      ensures Lived(end)
      ensures old(fates) == [] && (d.staged ==> d.id in stagedFiles && DeferredNeedsBaseline !in results) ==> end == Done && fates == []
    {
      hide Sound, PendingEndAt, ClearFor, Distinct, Fits, OneEach, Unrivalled;
      ack, terminal := [], false;
      var f: Fate;
      if d.staged {
        f := Op();
        if f != Works {
          return EndOf(f), [], false;
        }
        if d.id !in stagedFiles || DeferredNeedsBaseline in results {
          return Refused, [], false;
        }
      }
      ack, terminal := AckFromResults(d.Span(), results, true);
      DurableTerminalIff(d.Span(), results);
      if !terminal {
        return Done, ack, false;
      }
      f := Op();
      if f != Works {
        return EndOf(f), [], false;
      }
      end := Complete(d);
    }

    /** Replaces the admitted delivery by its terminal answer. */
    method Complete(d: Delivery) returns (end: End)
      requires Valid() && Completable(inbox, cursor, d)
      modifies this`inbox, this`fates, this`troubles, this`repaired, this`completedEver
      ensures Valid() && Forward() && PendingEndAt(inbox, d.next)
      ensures inbox == old(inbox) || inbox == old(inbox)[d.id := Record(d, true, false)]
      ensures end == Done ==> HasCompleted(inbox, d)
      ensures Distinct(old(inbox)) && Fits(old(inbox), d) ==> Distinct(inbox)
      ensures OneEach(old(inbox)) && Unrivalled(old(inbox), d) ==> OneEach(inbox)
      ensures Unrivalled(inbox, d) <==> Unrivalled(old(inbox), d)
      ensures completedEver == old(completedEver) || completedEver == old(completedEver) + {d}
      ensures Lived(end)
      ensures old(fates) == [] ==> end == Done && fates == []
    {
      hide Sound, PendingEndAt, ClearFor, Distinct, Fits, OneEach, Unrivalled;
      var f := Op();
      if f.TookEffect() {
        CompleteSound(inbox, cursor, completedEver, d);
        if Distinct(inbox) && Fits(inbox, d) {
          AdmitDistinct(inbox, d, Record(d, true, false));
        }
        if OneEach(inbox) && Unrivalled(inbox, d) {
          OneEachUpdated(inbox, d, Record(d, true, false));
        }
        RivalsStay(inbox, d);
        inbox := inbox[d.id := Record(d, true, false)];
        completedEver := completedEver + {d};
      }
      end := EndOf(f);
    }

    /** After the completion is durable: staged cleanup, cursor, pruning, in this order. */
    method Commit(d: Delivery) returns (end: End)
      requires Valid() && HasCompleted(inbox, d)
      requires PendingEndAt(inbox, d.next) && (Landed(cursor, d) || Follows(cursor, d))
      modifies this`inbox, this`cursor, this`stagedFiles, this`fates, this`troubles, this`repaired
      ensures Valid() && Forward() && Trimmed(old(inbox), inbox, Reached(cursor))
      ensures end == Done ==> Committed(d)
      ensures Lived(end)
      ensures cursor == old(cursor) || (Follows(old(cursor), d) && cursor == Some(d.next))
      ensures end == Done ==> Spent(inbox, d.next) == {} && Unrivalled(inbox, d)
      ensures Unrivalled(inbox, d) <==> Unrivalled(old(inbox), d)
      ensures cursor == old(cursor) || !d.staged || d.id !in stagedFiles
      ensures stagedFiles == old(stagedFiles) || (d.staged && stagedFiles == old(stagedFiles) - {d.id})
      ensures old(fates) == [] ==> fates == [] && !end.Died? && (OneEach(old(inbox)) ==> end == Done)
      ensures HasCompleted(inbox, d)
      ensures Distinct(old(inbox)) ==> Distinct(inbox)
      ensures end == Done ==> OneEach(inbox)
    {
      hide Sound, AloneAt, Stepped, PendingEndAt, NoClash, Spent, Distinct, OneEach, Unrivalled, Placed, Tidy, WellFlagged,
           OldestFirst, WellKept, OnePending;
      if d.staged {
        var f := Op();
        if f.TookEffect() {
          stagedFiles := stagedFiles - {d.id};
        }
        if f != Works {
          return EndOf(f);
        }
      }
      end := AdvanceCursor(d);
      if end == Done {
        ghost var before := inbox;
        SoundPlaced(inbox, cursor, completedEver);
        end := Prune();
        CommitKeeps(before, inbox, cursor, d, end == Done);
      } else {
        CommitKeeps(inbox, inbox, cursor, d, false);
      }
    }

    /** The completion is recorded, the staged file is gone, and the cursor stands on the delivery. */
    predicate Committed(d: Delivery)
      reads this
    {
      HasCompleted(inbox, d) && (d.staged ==> d.id !in stagedFiles) && cursor == Some(d.next)
    }

    /** Nothing but the delivery itself stands between this state and its import or its cached answer. */
    ghost predicate Ready(d: Delivery)
      reads this
    {
      Deliverable(inbox, cursor, d) && Admissible(inbox, stagedFiles, d)
    }

    /** Two completions end at `m`, and the stream cannot pass it. */
    ghost predicate StuckOn(m: Mark)
      reads this
    {
      BoundAt(inbox, cursor, m)
    }

    /** The inbox is full of deliveries that can neither be pruned nor carry the cursor on. */
    predicate Clogged()
      reads this
    {
      CloggedAt(inbox, cursor)
    }

    /** The barrier, then the admission. */
    method PassAndAdmit(d: Delivery) returns (end: End, cached: bool)
      requires Valid() && Authentic(d)
      modifies this`inbox, this`fates, this`troubles, this`repaired
      ensures Valid()
      ensures Lived(end)
      ensures end == Done ==> Has(inbox, d) && cached == inbox[d.id].completed
      ensures end == Done ==> PendingEndAt(inbox, d.next) && (Landed(cursor, d) || Follows(cursor, d)) && ClearFor(inbox, cursor, d)
      ensures old(fates) == [] && old(Ready(d)) ==>
                end == Done && fates == [] && Ready(d) && cached == old(HasCompleted(inbox, d))
                && (Unrivalled(inbox, d) <==> old(Unrivalled(inbox, d)))
      ensures inbox == old(inbox) || (d.id !in old(inbox) && inbox == old(inbox)[d.id := Record(d, false, false)] && !cached)
      ensures inbox != old(inbox) ==> |old(inbox)| < MAX_DELIVERIES
      ensures Distinct(old(inbox)) && Fits(old(inbox), d) ==> Distinct(inbox) && Fits(inbox, d)
    {
      hide Sound, Distinct, Fits, PendingEndAt, Landed, Follows, ClearFor, OneEach, Unrivalled;
      cached := false;
      end := FinalizeBarrier(d);
      if end != Done {
        return;
      }
      if Ready(d) && d.id !in inbox {
        AdmitKeepsReady(inbox, cursor, stagedFiles, d);
      }
      end, cached := Admit(d);
    }

    /** The steps before the import: repair, barrier, admission. */
    method LetIn(d: Delivery) returns (end: End, cached: bool)
      requires Valid() && Authentic(d)
      modifies this`inbox, this`cursor, this`fates, this`troubles, this`repaired
      ensures Valid() && Forward()
      ensures (end.Died? ==> !repaired) && (end.Refused? && old(repaired) ==> repaired) && (end == Done ==> Untroubled())
      ensures end == Done ==> repaired && Has(inbox, d) && cached == inbox[d.id].completed
      ensures end == Done ==> PendingEndAt(inbox, d.next) && (Landed(cursor, d) || Follows(cursor, d)) && ClearFor(inbox, cursor, d)
      ensures old(fates) == [] && old(Ready(d)) ==>
                end == Done && fates == [] && Ready(d) && cached == old(HasCompleted(inbox, d))
                && (Unrivalled(inbox, d) <==> old(Unrivalled(inbox, d)))
      ensures cached ==> Trimmed(old(inbox), inbox, Reached(cursor))
      ensures OnlyAdds(old(inbox), inbox, d) && Retains(old(inbox), inbox, Reached(cursor)) && KeepsFinal(old(inbox), inbox)
      ensures old(Distinct(inbox) && Fits(inbox, d)) ==> Distinct(inbox) && Fits(inbox, d)
      ensures old(Clogged()) ==> inbox == old(inbox) && cursor == old(cursor)
    {
      hide Sound, Distinct, Fits, AloneAt, PendingEndAt, Stepped, Trimmed, ReachedAllBut, Landed, Follows, ClearFor, OneEach,
           Unrivalled, CloggedAt, Retains, KeepsFinal, Tidy, WellFlagged, Placed, OnlyAdds, WellKept, OnePending,
           Admissible, HasCompleted;
      cached := false;
      ghost var items, start, done := inbox, cursor, completedEver;
      SoundPlaced(items, start, done);
      end := EnsureRepaired();
      ghost var trimmed := inbox;
      RepairKeeps(items, start, inbox, cursor, done, d);
      LetInRetains(items, trimmed, inbox, d, Reached(cursor));
      if CloggedAt(items, start) {
        CloggedRepair(items, start, inbox, cursor);
        CloggedFull(items, start);
      }
      if end != Done {
        return;
      }
      if old(Ready(d)) {
        StillReady(items, start, inbox, cursor, done, stagedFiles, d);
      }
      end, cached := PassAndAdmit(d);
      LetInRetains(items, trimmed, inbox, d, Reached(cursor));
    }

    /** Lets a delivery in and imports it, or finds the answer given before: the way to its commit. */
    method Receive(d: Delivery, results: seq<ImportOutcome>) returns (end: End, ack: seq<Disposition>, terminal: bool)
      requires Valid() && Authentic(d)
      modifies this`inbox, this`cursor, this`fates, this`troubles, this`repaired, this`completedEver
      ensures Valid() && Forward()
      ensures (end.Died? ==> !repaired) && (end == Done ==> repaired && Untroubled()) && (end.Refused? && old(repaired) ==> repaired)
      ensures end == Done && terminal ==> HasCompleted(inbox, d) && PendingEndAt(inbox, d.next) && (Landed(cursor, d) || Follows(cursor, d))
      ensures end == Done && !terminal ==> ack == Dispositions(results, true) && !Terminal(d, results) && !HasCompleted(inbox, d)
      ensures old(fates) == [] && old(Ready(d) && HasCompleted(inbox, d)) ==>
                end == Done && fates == [] && terminal && OneEach(inbox) && Trimmed(old(inbox), inbox, Reached(cursor))
      ensures old(fates) == [] && old(Ready(d) && !HasCompleted(inbox, d)) && !(d.staged && DeferredNeedsBaseline in results) ==>
                && end == Done && fates == [] && Has(inbox, d) && (terminal <==> Terminal(d, results))
                && (Unrivalled(inbox, d) <==> old(Unrivalled(inbox, d))) && (Unrivalled(inbox, d) ==> OneEach(inbox))
      ensures OnlyAdds(old(inbox), inbox, d) && Retains(old(inbox), inbox, Reached(cursor)) && KeepsFinal(old(inbox), inbox)
      ensures completedEver == old(completedEver) || (Terminal(d, results) && completedEver == old(completedEver) + {d})
      ensures old(Distinct(inbox) && Fits(inbox, d)) ==> Distinct(inbox)
      ensures old(Clogged()) ==> Clogged() && cursor == old(cursor)
    {
      hide Sound, Distinct, Fits, PendingEndAt, Trimmed, Landed, Follows, Dispositions, ClearFor, NoneRetried, OneEach,
           Unrivalled, CloggedAt, Retains, KeepsFinal, OnlyAdds;
      ghost var items := inbox;
      terminal, ack := true, [];
      var cached;
      end, cached := LetIn(d);
      if end != Done || cached {
        return;
      }
      ghost var admitted := inbox;
      end, ack, terminal := ImportAndComplete(d, results);
      CompleteRetains(items, admitted, inbox, cursor, d, Reached(cursor));
    }

    /** One delivery of the durable stream; `open` says whether every gate before the stream lets it
        through, and `results` is what the importer says of its events.

        A delivery that a gate refuses, or that is not in form, gets a retry and touches nothing.  At every
        exit, the process dying included, the state is sound and nothing recorded is undone.
        An answer accepts every event exactly when the delivery is committed.  With no trouble, a delivery
        completed before is accepted.  Any other gets its importer's dispositions, is committed exactly when
        they are terminal, and goes uncommitted without a retryable outcome exactly when the importer
        answered for too few or too many events and would have none retried; but when another delivery is
        completed to the same position, terminal results bind the stream there for good. */
    method OnInboundV2(d: Delivery, open: bool, results: seq<ImportOutcome>) returns (reply: Reply)
      requires Valid()
      modifies this
      ensures Valid() && Forward()
      ensures !open || !Authentic(d) ==> reply == Retry && Untouched()
      ensures reply.Dead? ==> !repaired
      ensures reply.Answered? ==> Untroubled()
      ensures reply.Retry? && old(repaired) ==> repaired
      ensures reply.Answered? && !Committed(d) ==> reply.outcomes == Dispositions(results, true)
      ensures stagedFiles == old(stagedFiles) || (d.staged && HasCompleted(inbox, d) && stagedFiles == old(stagedFiles) - {d.id})
      ensures reply.Answered? ==> repaired && (AcceptsAll(reply, d) <==> Committed(d))
      ensures reply.Answered? && RetryLater !in reply.outcomes ==> (|reply.outcomes| == d.Span() <==> Committed(d))
      ensures old(fates) == [] && open && Authentic(d) && old(Ready(d) && HasCompleted(inbox, d)) ==>
                AcceptsAll(reply, d) && fates == [] && Trimmed(old(inbox), inbox, Reached(cursor))
      ensures old(fates) == [] && open && Authentic(d) && old(Ready(d) && !HasCompleted(inbox, d))
              && !(d.staged && DeferredNeedsBaseline in results) ==>
                && fates == [] && Has(inbox, d) && (HasCompleted(inbox, d) <==> Terminal(d, results))
                && (if old(Unrivalled(inbox, d)) || !Terminal(d, results) then
                      && reply == Answered(Dispositions(results, true))
                      && (Committed(d) <==> Terminal(d, results))
                      && (RetryLater !in reply.outcomes && !Committed(d) <==> |results| != d.Span() && NoneRetried(results))
                    else reply == Retry && StuckOn(d.next))
      ensures OnlyAdds(old(inbox), inbox, d) && Retains(old(inbox), inbox, Reached(cursor))
      ensures completedEver == old(completedEver) || (Terminal(d, results) && completedEver == old(completedEver) + {d})
      ensures old(Distinct(inbox) && Fits(inbox, d)) ==> Distinct(inbox)
      ensures AcceptsAll(reply, d) ==> OneEach(inbox) && Spent(inbox, d.next) == {}
      ensures old(Clogged()) ==> Clogged() && cursor == old(cursor)
    {
      hide Sound, Distinct, Fits, PendingEndAt, Trimmed, Landed, Follows, Dispositions, ClearFor, NoneRetried, OneEach,
           Unrivalled, CloggedAt, Retains, KeepsFinal, BoundAt, Spent, OnlyAdds;
      ghost var items, start := inbox, cursor;
      RetainsItself(items, d, Reached(cursor));
      if !open || !Authentic(d) {
        return Retry;
      }
      var end, ack, terminal := Receive(d, results);
      if end != Done {
        return Halted(end);
      }
      QuietIff(d, results);
      if !terminal {
        return Answered(ack);
      }
      ghost var before, from := inbox, cursor;
      end := Commit(d);
      if Trimmed(items, before, Reached(from)) {
        TrimmedFurther(items, before, inbox, Reached(from), Reached(cursor));
      }
      OnlyAddsTwice(items, before, inbox, d, Reached(cursor));
      CommitRetains(items, before, inbox, from, cursor, d);
      if end != Done {
        if !Unrivalled(inbox, d) {
          RivalBinds(inbox, cursor, completedEver, d);
        }
        return Halted(end);
      }
      reply := Answered(seq(d.Span(), i => Accepted));
    }

    /** The plugin has received the body of a staged delivery. */
    method Stage(id: nat)
      requires Valid()
      modifies this`stagedFiles
      ensures Valid() && Forward() && stagedFiles == old(stagedFiles) + {id}
    {
      stagedFiles := stagedFiles + {id};
    }

    /** The process starts again, and `script` says what will befall its operations. */
    method Restart(script: seq<Fate>)
      requires Valid()
      modifies this`repaired, this`fates, this`troubles
      ensures Valid() && Forward() && !repaired && fates == script
    {
      repaired, fates := false, script;
    }

    /** The native write that follows a committed delivery; `materializes` says whether it succeeds.
        It never touches the cursor, and it opens the way to the successor. */
    method OnInboundFinalizeV1(d: Delivery, materializes: bool) returns (accepted: bool)
      requires Valid()
      modifies this`inbox, this`fates, this`troubles, this`repaired
      ensures Valid() && Forward()
      ensures accepted ==> Landed(cursor, d) && HasCompleted(inbox, d) && inbox[d.id].finalized && Untroubled()
      ensures inbox == old(inbox)
              || (materializes && Landed(cursor, d) && HasCompleted(old(inbox), d) && inbox == old(inbox)[d.id := Record(d, true, true)])
      ensures accepted && HasCompleted(old(inbox), d) && old(inbox)[d.id].Pending() && OneEach(old(inbox)) ==> NothingWaits(inbox)
      ensures old(fates) == [] && Landed(cursor, d) && HasCompleted(old(inbox), d) && materializes ==> accepted
      ensures Distinct(old(inbox)) ==> Distinct(inbox)
      ensures OneEach(old(inbox)) ==> OneEach(inbox)
      ensures old(fates) == [] ==> fates == []
      ensures old(Clogged()) ==> Clogged()
    {
      hide Sound, Distinct, NothingWaits, OneEach, CloggedAt;
      var f := Op();
      if f != Works || !Landed(cursor, d) {
        return false;
      }
      f := Op();
      if f != Works || !HasCompleted(inbox, d) {
        return false;
      }
      FinalizeKeeps(inbox, cursor, completedEver, d);
      if CloggedAt(inbox, cursor) {
        CloggedUpdate(inbox, cursor, d.id, Record(d, true, true));
      }
      if inbox[d.id].finalized {
        return true;
      }
      if !materializes {
        return false;
      }
      f := Op();
      if f.TookEffect() {
        inbox := inbox[d.id := Record(d, true, true)];
      }
      accepted := f == Works;
    }
  }
}
