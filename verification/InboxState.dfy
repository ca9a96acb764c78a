/** What the durable inbox and the cursor record hold between two steps, and what every step keeps.

    One positioned stream is modelled.  A mark is a cursor token with its position; a delivery carries
    the marks it starts from and ends at, and spans as many events as the positions between them. */
module InboxState {
  import opened Options

  datatype Mark = Mark(token: nat, pos: nat)

  datatype Delivery = Delivery(id: nat, pred: Mark, next: Mark, staged: bool)
  {
    function Span(): int { next.pos - pred.pos }
  }

  /** An inbox record: admitted, then completed with its terminal ack, then natively finalized. */
  datatype Record = Record(delivery: Delivery, completed: bool, finalized: bool)
  {
    predicate Pending() { completed && !finalized }
  }

  type Inbox = map<nat, Record>

  const MAX_BATCH: nat := 16
  const MAX_DELIVERIES: nat := 10000

  predicate Authentic(d: Delivery) {
    1 <= d.Span() <= MAX_BATCH && d.pred.token != d.next.token && (d.staged ==> d.Span() == 1)
  }

  /** What is not in form: no event or too many, a cursor that goes nowhere, or a staged batch. */
  lemma MalformedIff(d: Delivery)
    ensures !Authentic(d) <==> d.next.pos <= d.pred.pos || d.next.pos > d.pred.pos + MAX_BATCH
                               || d.next.token == d.pred.token || (d.staged && d.next.pos != d.pred.pos + 1)
  {
  }

  // ---------------------------------------------------------------- the cursor and its history

  predicate Landed(cursor: Option<Mark>, d: Delivery) { cursor == Some(d.next) }

  predicate Follows(cursor: Option<Mark>, d: Delivery) {
    if cursor.None? then d.pred.pos == 0 else cursor.value == d.pred
  }

  function Reached(cursor: Option<Mark>): nat { if cursor.Some? then cursor.value.pos else 0 }

  /** The positions up to `m` are covered, end to end, by deliveries in `done`. */
  ghost predicate Covered(done: set<Delivery>, m: Mark)
    decreases m.pos
  {
    m.pos == 0 || exists d :: d in done && d.next == m && d.pred.pos < m.pos && Covered(done, d.pred)
  }

  lemma {:induction false} CoveredGrows(done: set<Delivery>, more: set<Delivery>, m: Mark)
    requires Covered(done, m) && done <= more
    ensures Covered(more, m)
    decreases m.pos
  {
    if m.pos > 0 {
      var d :| d in done && d.next == m && d.pred.pos < m.pos && Covered(done, d.pred);
      CoveredGrows(done, more, d.pred);
    }
  }

  // ---------------------------------------------------------------- the invariant

  predicate Has(inbox: Inbox, d: Delivery) { d.id in inbox && inbox[d.id].delivery == d }

  predicate HasCompleted(inbox: Inbox, d: Delivery) { Has(inbox, d) && inbox[d.id].completed }

  ghost predicate WellKept(inbox: Inbox, done: set<Delivery>) {
    forall id :: id in inbox ==>
      && inbox[id].delivery.id == id && Authentic(inbox[id].delivery)
      && (inbox[id].finalized ==> inbox[id].completed)
      && (inbox[id].completed ==> inbox[id].delivery in done)
  }

  /** Finalized completions lie at or before the cursor; one not yet finalized is at most one step ahead. */
  ghost predicate Placed(inbox: Inbox, cursor: Option<Mark>) {
    forall id :: id in inbox && inbox[id].completed ==>
      if inbox[id].finalized then inbox[id].delivery.next.pos <= Reached(cursor)
      else Landed(cursor, inbox[id].delivery) || Follows(cursor, inbox[id].delivery)
  }

  ghost predicate PendingEndAt(inbox: Inbox, m: Mark) {
    forall id :: id in inbox && inbox[id].Pending() ==> inbox[id].delivery.next == m
  }

  ghost predicate OnePending(inbox: Inbox) {
    forall a, b :: a in inbox && b in inbox && inbox[a].Pending() && inbox[b].Pending() ==>
      inbox[a].delivery.next == inbox[b].delivery.next
  }

  /** The completion the cursor stands on is still in the inbox. */
  ghost predicate Kept(inbox: Inbox, m: Mark) {
    exists id :: id in inbox && inbox[id].completed && inbox[id].delivery.next == m
  }

  /** A completed delivery is in the inbox until the cursor has left it behind. */
  ghost predicate Remembered(inbox: Inbox, cursor: Option<Mark>, done: set<Delivery>) {
    forall d :: d in done ==> HasCompleted(inbox, d) || d.next.pos < Reached(cursor)
  }

  /** Two deliveries with this end mark were ever completed. */
  ghost predicate CompletedTwice(done: set<Delivery>, m: Mark) {
    exists a, b :: a in done && b in done && a.id != b.id && a.next == m && b.next == m
  }

  predicate BothEndAt(inbox: Inbox, a: nat, b: nat, m: Mark) {
    && a in inbox && b in inbox && a != b && inbox[a].completed && inbox[b].completed
    && inbox[a].delivery.next == m && inbox[b].delivery.next == m
  }

  ghost predicate TwiceAt(inbox: Inbox, m: Mark) { exists a: nat, b: nat :: BothEndAt(inbox, a, b, m) }

  /** Two completions end at `m` and nothing waits beyond: the stream cannot pass it. */
  ghost predicate BoundAt(inbox: Inbox, cursor: Option<Mark>, m: Mark) {
    TwiceAt(inbox, m) && PendingEndAt(inbox, m) && (cursor == Some(m) || Reached(cursor) < m.pos)
  }

  ghost predicate RepeatsBind(inbox: Inbox, cursor: Option<Mark>, done: set<Delivery>) {
    forall m :: CompletedTwice(done, m) ==> BoundAt(inbox, cursor, m)
  }

  /** Completed deliveries that end at one position end at one mark. */
  ghost predicate MarksAgree(done: set<Delivery>) {
    forall a, b :: a in done && b in done && a.next.pos == b.next.pos ==> a.next == b.next
  }

  /** What the inbox and the cursor say by themselves. */
  ghost predicate Tidy(inbox: Inbox, cursor: Option<Mark>, done: set<Delivery>) {
    && WellKept(inbox, done) && Placed(inbox, cursor) && OnePending(inbox) && |inbox| <= MAX_DELIVERIES
    && (cursor.Some? ==> cursor.value.pos > 0 && Kept(inbox, cursor.value) && Covered(done, cursor.value))
  }

  /** What they say of every delivery ever completed. */
  ghost predicate Recalls(inbox: Inbox, cursor: Option<Mark>, done: set<Delivery>) {
    Remembered(inbox, cursor, done) && RepeatsBind(inbox, cursor, done) && MarksAgree(done)
  }

  ghost predicate Sound(inbox: Inbox, cursor: Option<Mark>, done: set<Delivery>) {
    Tidy(inbox, cursor, done) && Recalls(inbox, cursor, done)
  }

  /** In every sound state the stream is bound at a mark exactly when two deliveries that end there were
      ever completed. */
  lemma BoundIffCompletedTwice(inbox: Inbox, cursor: Option<Mark>, done: set<Delivery>, m: Mark)
    requires Sound(inbox, cursor, done)
    ensures BoundAt(inbox, cursor, m) <==> CompletedTwice(done, m)
  {
    hide Covered, Kept, Placed, OnePending, PendingEndAt, Remembered;
    if TwiceAt(inbox, m) {
      var a: nat, b: nat :| BothEndAt(inbox, a, b, m);
      assert inbox[a].delivery in done && inbox[b].delivery in done && inbox[a].delivery.id != inbox[b].delivery.id;
    }
  }

  /** A record that completes nothing new leaves the bound marks as they are. */
  lemma TwiceUpdated(inbox: Inbox, id: nat, r: Record, m: Mark)
    requires id in inbox ==> r.completed == inbox[id].completed && r.delivery == inbox[id].delivery
    requires id !in inbox ==> !r.completed
    ensures TwiceAt(inbox[id := r], m) <==> TwiceAt(inbox, m)
  {
    var after := inbox[id := r];
    if TwiceAt(after, m) {
      var a: nat, b: nat :| BothEndAt(after, a, b, m);
      assert BothEndAt(inbox, a, b, m);
    }
    if TwiceAt(inbox, m) {
      var a: nat, b: nat :| BothEndAt(inbox, a, b, m);
      assert BothEndAt(after, a, b, m);
    }
  }

  lemma KeptUpdated(inbox: Inbox, id: nat, r: Record, m: Mark)
    requires Kept(inbox, m)
    requires id in inbox ==> r.delivery == inbox[id].delivery && (inbox[id].completed ==> r.completed)
    ensures Kept(inbox[id := r], m)
  {
    var k :| k in inbox && inbox[k].completed && inbox[k].delivery.next == m;
    assert k in inbox[id := r];
  }

  lemma SizeUpdated(inbox: Inbox, id: nat, r: Record)
    ensures |inbox[id := r]| == if id in inbox then |inbox| else |inbox| + 1
  {
    assert inbox[id := r].Keys == inbox.Keys + {id};
    assert |inbox[id := r]| == |inbox[id := r].Keys| && |inbox| == |inbox.Keys|;
  }

  // ---------------------------------------------------------------- admission

  lemma AdmitTidy(inbox: Inbox, cursor: Option<Mark>, done: set<Delivery>, d: Delivery)
    requires Tidy(inbox, cursor, done) && Authentic(d) && d.id !in inbox && |inbox| < MAX_DELIVERIES
    ensures Tidy(inbox[d.id := Record(d, false, false)], cursor, done)
  {
    if cursor.Some? {
      KeptUpdated(inbox, d.id, Record(d, false, false), cursor.value);
    }
    hide Covered, Kept;
    SizeUpdated(inbox, d.id, Record(d, false, false));
  }

  lemma AdmitRecalls(inbox: Inbox, cursor: Option<Mark>, done: set<Delivery>, d: Delivery)
    requires Recalls(inbox, cursor, done) && d.id !in inbox
    ensures Recalls(inbox[d.id := Record(d, false, false)], cursor, done)
  {
    hide TwiceAt, CompletedTwice, MarksAgree;
    forall m | CompletedTwice(done, m) ensures BoundAt(inbox[d.id := Record(d, false, false)], cursor, m) {
      assert BoundAt(inbox, cursor, m);
      TwiceUpdated(inbox, d.id, Record(d, false, false), m);
    }
  }

  lemma AdmitSound(inbox: Inbox, cursor: Option<Mark>, done: set<Delivery>, d: Delivery)
    requires Sound(inbox, cursor, done) && Authentic(d) && d.id !in inbox && |inbox| < MAX_DELIVERIES
    ensures Sound(inbox[d.id := Record(d, false, false)], cursor, done)
  {
    hide Tidy, Recalls;
    AdmitTidy(inbox, cursor, done, d);
    AdmitRecalls(inbox, cursor, done, d);
  }

  // ---------------------------------------------------------------- completion

  /** Wherever else the stream may be bound, it is not in the way of `d`. */
  ghost predicate ClearFor(inbox: Inbox, cursor: Option<Mark>, d: Delivery) {
    forall m :: BoundAt(inbox, cursor, m) ==> m == d.next
  }

  /** A delivery about to be completed: admitted, at the cursor or next, and nothing else in its way. */
  ghost predicate Completable(inbox: Inbox, cursor: Option<Mark>, d: Delivery) {
    && Has(inbox, d) && !inbox[d.id].completed && (Landed(cursor, d) || Follows(cursor, d))
    && PendingEndAt(inbox, d.next) && ClearFor(inbox, cursor, d)
  }

  lemma CompleteTidy(inbox: Inbox, cursor: Option<Mark>, done: set<Delivery>, d: Delivery)
    requires Tidy(inbox, cursor, done) && Completable(inbox, cursor, d)
    ensures Tidy(inbox[d.id := Record(d, true, false)], cursor, done + {d})
    ensures PendingEndAt(inbox[d.id := Record(d, true, false)], d.next)
  {
    if cursor.Some? {
      KeptUpdated(inbox, d.id, Record(d, true, false), cursor.value);
      CoveredGrows(done, done + {d}, cursor.value);
    }
    hide Covered, Kept, ClearFor;
    SizeUpdated(inbox, d.id, Record(d, true, false));
  }

  lemma CompletedMarkAgrees(inbox: Inbox, cursor: Option<Mark>, done: set<Delivery>, d: Delivery)
    requires Sound(inbox, cursor, done) && Completable(inbox, cursor, d)
    ensures MarksAgree(done + {d})
  {
    hide Covered, RepeatsBind, OnePending, ClearFor;
    forall a | a in done && a.next.pos == d.next.pos ensures a.next == d.next {
      if a.next.pos == Reached(cursor) {
        var k :| k in inbox && inbox[k].completed && inbox[k].delivery.next == cursor.value;
        assert inbox[k].delivery in done;
      } else {
        assert HasCompleted(inbox, a) && inbox[a.id].Pending();
      }
    }
  }

  lemma CompleteBinds(inbox: Inbox, cursor: Option<Mark>, done: set<Delivery>, d: Delivery, m: Mark)
    requires Sound(inbox, cursor, done) && Completable(inbox, cursor, d)
    requires CompletedTwice(done + {d}, m)
    ensures BoundAt(inbox[d.id := Record(d, true, false)], cursor, m)
  {
    hide Covered, Kept, OnePending, MarksAgree, Placed;
    var after := inbox[d.id := Record(d, true, false)];
    var a, b :| a in done + {d} && b in done + {d} && a.id != b.id && a.next == m && b.next == m;
    assert Authentic(d);
    if a in done && b in done {
      assert CompletedTwice(done, m);
      assert m == d.next;
    }
    assert HasCompleted(after, a) && HasCompleted(after, b);
    assert BothEndAt(after, a.id, b.id, m);
  }

  lemma CompleteRecalls(inbox: Inbox, cursor: Option<Mark>, done: set<Delivery>, d: Delivery)
    requires Sound(inbox, cursor, done) && Completable(inbox, cursor, d)
    ensures Recalls(inbox[d.id := Record(d, true, false)], cursor, done + {d})
  {
    CompletedMarkAgrees(inbox, cursor, done, d);
    hide MarksAgree, Tidy, BoundAt, CompletedTwice, ClearFor, PendingEndAt;
    forall m | CompletedTwice(done + {d}, m) ensures BoundAt(inbox[d.id := Record(d, true, false)], cursor, m) {
      CompleteBinds(inbox, cursor, done, d, m);
    }
  }

  lemma CompleteSound(inbox: Inbox, cursor: Option<Mark>, done: set<Delivery>, d: Delivery)
    requires Sound(inbox, cursor, done) && Completable(inbox, cursor, d)
    ensures Sound(inbox[d.id := Record(d, true, false)], cursor, done + {d})
    ensures PendingEndAt(inbox[d.id := Record(d, true, false)], d.next)
  {
    hide Tidy, Recalls, Completable, PendingEndAt;
    CompleteTidy(inbox, cursor, done, d);
    CompleteRecalls(inbox, cursor, done, d);
  }

  // ---------------------------------------------------------------- the cursor, pruning, the native write

  lemma AdvanceSound(inbox: Inbox, cursor: Option<Mark>, done: set<Delivery>, d: Delivery)
    requires Sound(inbox, cursor, done) && HasCompleted(inbox, d)
    requires Follows(cursor, d)
    requires PendingEndAt(inbox, d.next)
    ensures Sound(inbox, Some(d.next), done)
  {
    hide MarksAgree;
    assert d in done && Covered(done, d.pred) && Covered(done, d.next);
    assert inbox[d.id].Pending();
    forall m | CompletedTwice(done, m) ensures BoundAt(inbox, Some(d.next), m) {
      assert BoundAt(inbox, cursor, m);
      assert m == d.next;
    }
  }

  lemma PruneBinds(inbox: Inbox, cursor: Option<Mark>, id: nat, m: Mark)
    requires BoundAt(inbox, cursor, m)
    requires id in inbox && inbox[id].delivery.next.pos < Reached(cursor)
    ensures BoundAt(inbox - {id}, cursor, m)
  {
    var after := inbox - {id};
    var a: nat, b: nat :| BothEndAt(inbox, a, b, m);
    assert BothEndAt(after, a, b, m);
  }

  lemma PruneTidy(inbox: Inbox, cursor: Option<Mark>, done: set<Delivery>, id: nat)
    requires Tidy(inbox, cursor, done)
    requires id in inbox && inbox[id].finalized && inbox[id].delivery.next.pos < Reached(cursor)
    ensures Tidy(inbox - {id}, cursor, done)
  {
    var after := inbox - {id};
    var k :| k in inbox && inbox[k].completed && inbox[k].delivery.next == cursor.value;
    assert k in after;
    hide Covered;
    assert after.Keys == inbox.Keys - {id};
  }

  lemma PruneSound(inbox: Inbox, cursor: Option<Mark>, done: set<Delivery>, id: nat)
    requires Sound(inbox, cursor, done)
    requires id in inbox && inbox[id].finalized && inbox[id].delivery.next.pos < Reached(cursor)
    ensures Sound(inbox - {id}, cursor, done)
  {
    PruneTidy(inbox, cursor, done, id);
    assert inbox[id].delivery.id == id;
    hide Tidy, Recalls;
    PruneRecalls(inbox, cursor, done, id);
  }

  lemma PruneRecalls(inbox: Inbox, cursor: Option<Mark>, done: set<Delivery>, id: nat)
    requires Recalls(inbox, cursor, done)
    requires id in inbox && inbox[id].delivery.id == id && inbox[id].delivery.next.pos < Reached(cursor)
    ensures Recalls(inbox - {id}, cursor, done)
  {
    hide BoundAt, CompletedTwice, MarksAgree;
    forall m | CompletedTwice(done, m) ensures BoundAt(inbox - {id}, cursor, m) {
      PruneBinds(inbox, cursor, id, m);
    }
  }

  lemma FinalizeTidy(inbox: Inbox, cursor: Option<Mark>, done: set<Delivery>, d: Delivery)
    requires Tidy(inbox, cursor, done) && HasCompleted(inbox, d) && Landed(cursor, d)
    ensures Tidy(inbox[d.id := Record(d, true, true)], cursor, done)
  {
    KeptUpdated(inbox, d.id, Record(d, true, true), cursor.value);
    hide Covered, Kept;
    SizeUpdated(inbox, d.id, Record(d, true, true));
  }

  lemma FinalizeSound(inbox: Inbox, cursor: Option<Mark>, done: set<Delivery>, d: Delivery)
    requires Sound(inbox, cursor, done) && HasCompleted(inbox, d) && Landed(cursor, d)
    ensures Sound(inbox[d.id := Record(d, true, true)], cursor, done)
  {
    hide Tidy, Recalls;
    FinalizeTidy(inbox, cursor, done, d);
    FinalizeRecalls(inbox, cursor, done, d);
  }

  lemma FinalizeRecalls(inbox: Inbox, cursor: Option<Mark>, done: set<Delivery>, d: Delivery)
    requires Recalls(inbox, cursor, done) && HasCompleted(inbox, d)
    ensures Recalls(inbox[d.id := Record(d, true, true)], cursor, done)
  {
    hide TwiceAt, CompletedTwice, MarksAgree;
    forall m | CompletedTwice(done, m) ensures BoundAt(inbox[d.id := Record(d, true, true)], cursor, m) {
      assert BoundAt(inbox, cursor, m);
      TwiceUpdated(inbox, d.id, Record(d, true, true), m);
    }
  }

  // ---------------------------------------------------------------- one delivery for each position

  /** No two deliveries held share their end position. */
  ghost predicate Distinct(inbox: Inbox) {
    forall a, b :: a in inbox && b in inbox && inbox[a].delivery.next.pos == inbox[b].delivery.next.pos ==> a == b
  }

  /** The relay names the position of `d` by no other delivery, and its id by no other position. */
  ghost predicate Fits(inbox: Inbox, d: Delivery) {
    && (d.id in inbox ==> inbox[d.id].delivery == d)
    && (forall id :: id in inbox && inbox[id].delivery.next.pos == d.next.pos ==> id == d.id)
  }

  lemma AdmitDistinct(inbox: Inbox, d: Delivery, r: Record)
    requires Distinct(inbox) && Fits(inbox, d) && r.delivery == d
    ensures Distinct(inbox[d.id := r])
  {
  }

  // ---------------------------------------------------------------- the scans of the inbox

  ghost predicate CompletedAt(inbox: Inbox, id: nat, p: nat) {
    id in inbox && inbox[id].completed && inbox[id].delivery.next.pos == p
  }

  ghost predicate AloneAt(inbox: Inbox, p: nat) {
    forall a, b :: CompletedAt(inbox, a, p) && CompletedAt(inbox, b, p) ==> a == b
  }

  ghost predicate NoClash(inbox: Inbox, upTo: nat) { forall p: nat :: p <= upTo ==> AloneAt(inbox, p) }

  ghost predicate ExactAt(inbox: Inbox, m: Mark) {
    forall id :: CompletedAt(inbox, id, m.pos) ==> inbox[id].delivery.next == m
  }

  ghost function Spent(inbox: Inbox, m: Mark): set<nat> {
    set id | id in inbox && inbox[id].completed && inbox[id].finalized && inbox[id].delivery.next.pos < m.pos
  }

  /** What the pruning scan knows after the records in `visited`. */
  ghost predicate Scanned(visited: Inbox, m: Mark, seen: set<nat>, exactFound: bool, candidates: set<nat>) {
    && (forall p: nat :: p in seen <==> p <= m.pos && exists id :: CompletedAt(visited, id, p))
    && NoClash(visited, m.pos) && ExactAt(visited, m)
    && (exactFound <==> Kept(visited, m)) && candidates == Spent(visited, m)
  }

  lemma KeptGrows(inbox: Inbox, id: nat, r: Record, m: Mark)
    requires id !in inbox
    ensures Kept(inbox[id := r], m) <==> Kept(inbox, m) || (r.completed && r.delivery.next == m)
  {
    var grown := inbox[id := r];
    if Kept(inbox, m) {
      var k :| k in inbox && inbox[k].completed && inbox[k].delivery.next == m;
      assert k in grown && grown[k].completed;
    }
    if r.completed && r.delivery.next == m {
      assert id in grown && grown[id].completed;
    }
  }

  lemma ScanSkips(visited: Inbox, m: Mark, seen: set<nat>, exactFound: bool, candidates: set<nat>, id: nat, r: Record)
    requires Scanned(visited, m, seen, exactFound, candidates) && id !in visited
    requires !r.completed || r.delivery.next.pos > m.pos
    ensures Scanned(visited[id := r], m, seen, exactFound, candidates)
  {
    var grown := visited[id := r];
    KeptGrows(visited, id, r, m);
    forall p: nat, k | p <= m.pos ensures CompletedAt(grown, k, p) <==> CompletedAt(visited, k, p) {}
    forall p: nat | p <= m.pos ensures AloneAt(grown, p) {
      assert AloneAt(visited, p);
    }
  }

  lemma ScanTakes(visited: Inbox, m: Mark, seen: set<nat>, exactFound: bool, candidates: set<nat>, id: nat, r: Record)
    requires Scanned(visited, m, seen, exactFound, candidates) && id !in visited
    requires r.completed && r.delivery.next.pos <= m.pos && r.delivery.next.pos !in seen
    requires r.delivery.next.pos == m.pos ==> r.delivery.next == m
    ensures Scanned(visited[id := r], m, seen + {r.delivery.next.pos}, exactFound || r.delivery.next == m,
                    if r.finalized && r.delivery.next.pos < m.pos then candidates + {id} else candidates)
  {
    var grown := visited[id := r];
    KeptGrows(visited, id, r, m);
    assert CompletedAt(grown, id, r.delivery.next.pos);
    forall p: nat, k | k != id ensures CompletedAt(grown, k, p) <==> CompletedAt(visited, k, p) {}
    forall p: nat | p <= m.pos ensures AloneAt(grown, p) {
      assert AloneAt(visited, p);
      if p == r.delivery.next.pos {
        assert forall k :: !CompletedAt(visited, k, p);
      }
    }
  }

  lemma ScanRefuses(visited: Inbox, inbox: Inbox, m: Mark, seen: set<nat>, exactFound: bool, candidates: set<nat>, id: nat)
    requires Scanned(visited, m, seen, exactFound, candidates)
    requires id !in visited && id in inbox && inbox[id].completed && inbox[id].delivery.next.pos <= m.pos
    requires forall k :: k in visited ==> k in inbox && visited[k] == inbox[k]
    requires inbox[id].delivery.next.pos in seen || (inbox[id].delivery.next.pos == m.pos && inbox[id].delivery.next != m)
    ensures !(NoClash(inbox, m.pos) && ExactAt(inbox, m))
  {
    var p := inbox[id].delivery.next.pos;
    assert CompletedAt(inbox, id, p);
    if p in seen {
      var k :| CompletedAt(visited, k, p);
      assert CompletedAt(inbox, k, p);
      assert !AloneAt(inbox, p);
    }
  }

  /** The scan that pruning makes: it refuses two completions at one position, and a cursor that no
      completion proves; otherwise it gives the finalized completions the cursor has left behind. */
  method PruneCandidates(inbox: Inbox, m: Mark) returns (ok: bool, candidates: set<nat>)
    ensures ok <==> NoClash(inbox, m.pos) && ExactAt(inbox, m) && Kept(inbox, m)
    ensures ok ==> candidates == Spent(inbox, m)
  {
    hide NoClash, ExactAt, Kept, Spent;
    var todo, seen := inbox.Keys, {};
    var exactFound := false;
    candidates := {};
    ghost var visited: Inbox := map[];
    ScanStarts(m);
    while todo != {}
      invariant todo <= inbox.Keys && visited.Keys == inbox.Keys - todo
      invariant forall id :: id in visited ==> visited[id] == inbox[id]
      invariant Scanned(visited, m, seen, exactFound, candidates)
    {
      hide Scanned;
      var id :| id in todo;
      var r := inbox[id];
      if r.completed && r.delivery.next.pos <= m.pos {
        if r.delivery.next.pos in seen || (r.delivery.next.pos == m.pos && r.delivery.next != m) {
          ScanRefuses(visited, inbox, m, seen, exactFound, candidates, id);
          return false, {};
        }
        ScanTakes(visited, m, seen, exactFound, candidates, id, r);
        seen, exactFound := seen + {r.delivery.next.pos}, exactFound || r.delivery.next == m;
        if r.finalized && r.delivery.next.pos < m.pos {
          candidates := candidates + {id};
        }
      } else {
        ScanSkips(visited, m, seen, exactFound, candidates, id, r);
      }
      todo, visited := todo - {id}, visited[id := r];
    }
    assert visited == inbox;
    ok := exactFound;
  }

  lemma ScanStarts(m: Mark)
    ensures Scanned(map[], m, {}, false, {})
  {
    forall p: nat ensures AloneAt(map[], p) {}
  }

  predicate SamePosition(inbox: Inbox, a: nat, b: nat) {
    && a in inbox && b in inbox && inbox[a].completed && inbox[b].completed
    && inbox[a].delivery.next.pos == inbox[b].delivery.next.pos
  }

  /** No two completions held share their end position. */
  ghost predicate OneEach(inbox: Inbox) { forall a: nat, b: nat :: SamePosition(inbox, a, b) ==> a == b }

  /** No mark binds the stream. */
  ghost predicate Unbound(inbox: Inbox, cursor: Option<Mark>) { forall m :: !BoundAt(inbox, cursor, m) }

  /** The stream is bound nowhere exactly when each position is completed at most once. */
  lemma UnboundIffOneEach(inbox: Inbox, cursor: Option<Mark>, done: set<Delivery>)
    requires Sound(inbox, cursor, done)
    ensures Unbound(inbox, cursor) <==> OneEach(inbox)
  {
    hide Covered, Kept, Placed, OnePending, PendingEndAt, Remembered;
    if a: nat, b: nat :| SamePosition(inbox, a, b) && a != b {
      assert inbox[a].delivery in done && inbox[b].delivery in done;
      assert inbox[a].delivery.id == a && inbox[b].delivery.id == b;
      assert CompletedTwice(done, inbox[a].delivery.next);
    }
    if m :| BoundAt(inbox, cursor, m) {
      var a: nat, b: nat :| BothEndAt(inbox, a, b, m);
      assert SamePosition(inbox, a, b);
    }
  }

  /** With each position completed at most once, the scans find nothing to refuse. */
  lemma OneEachScans(inbox: Inbox, m: Mark, done: set<Delivery>)
    requires OneEach(inbox) && Sound(inbox, Some(m), done)
    ensures NoClash(inbox, m.pos) && ExactAt(inbox, m) && Kept(inbox, m)
  {
    hide Recalls, Covered;
    forall p: nat, a: nat, b: nat | CompletedAt(inbox, a, p) && CompletedAt(inbox, b, p) ensures a == b {
      assert SamePosition(inbox, a, b);
    }
    forall p: nat ensures AloneAt(inbox, p) {}
    var k: nat :| k in inbox && inbox[k].completed && inbox[k].delivery.next == m;
    assert CompletedAt(inbox, k, m.pos);
  }

  /** At most one completion waits for its native finalize, and it is for the mark `d` ends at. */
  ghost predicate OnlyWaits(inbox: Inbox, d: Delivery) {
    && PendingEndAt(inbox, d.next)
    && forall a, b :: a in inbox && b in inbox && inbox[a].Pending() && inbox[b].Pending() ==> a == b
  }

  /** The first scan of the barrier. */
  method BarrierScan(inbox: Inbox, d: Delivery) returns (ok: bool)
    ensures ok <==> OnlyWaits(inbox, d)
  {
    var todo := inbox.Keys;
    var waiting: Option<nat> := None;
    while todo != {}
      invariant todo <= inbox.Keys
      invariant waiting.Some? ==> waiting.value in inbox && waiting.value !in todo && inbox[waiting.value].Pending()
      invariant forall id :: id in inbox && id !in todo && inbox[id].Pending() ==> waiting == Some(id)
      invariant forall id :: id in inbox && id !in todo && inbox[id].Pending() ==> inbox[id].delivery.next == d.next
    {
      var id :| id in todo;
      if inbox[id].Pending() {
        if waiting.Some? || inbox[id].delivery.next != d.next {
          return false;
        }
        waiting := Some(id);
      }
      todo := todo - {id};
    }
    ok := true;
  }

  /** The barrier lets nothing past a bound mark. */
  lemma BarrierClears(inbox: Inbox, cursor: Option<Mark>, done: set<Delivery>, d: Delivery)
    requires Sound(inbox, cursor, done) && OnlyWaits(inbox, d)
    requires Landed(cursor, d) || Follows(cursor, d)
    requires cursor.Some? && !Landed(cursor, d) ==> AloneAt(inbox, cursor.value.pos)
    ensures ClearFor(inbox, cursor, d)
  {
    forall m | BoundAt(inbox, cursor, m) ensures m == d.next {
      var a: nat, b: nat :| BothEndAt(inbox, a, b, m);
      if cursor == Some(m) {
        assert CompletedAt(inbox, a, m.pos) && CompletedAt(inbox, b, m.pos);
      } else {
        assert inbox[a].Pending() && inbox[b].Pending();
      }
    }
  }

  /** The completion at `m` is there, alone, exact and finalized. */
  ghost predicate FinalizedAt(inbox: Inbox, m: Mark) {
    && Kept(inbox, m) && ExactAt(inbox, m) && AloneAt(inbox, m.pos)
    && forall id :: CompletedAt(inbox, id, m.pos) ==> inbox[id].finalized
  }

  /** With each position completed at most once the barrier stops no delivery that is next, or is repeated. */
  lemma BarrierPasses(inbox: Inbox, cursor: Option<Mark>, done: set<Delivery>, d: Delivery)
    requires Sound(inbox, cursor, done) && OneEach(inbox) && Authentic(d) && PendingEndAt(inbox, d.next)
    ensures OnlyWaits(inbox, d)
    ensures cursor.Some? && Follows(cursor, d) ==> FinalizedAt(inbox, cursor.value)
  {
    forall a: nat, b: nat | a in inbox && b in inbox && inbox[a].Pending() && inbox[b].Pending() ensures a == b {
      assert SamePosition(inbox, a, b);
    }
    if cursor.Some? && Follows(cursor, d) {
      OneEachScans(inbox, cursor.value, done);
      assert AloneAt(inbox, cursor.value.pos);
    }
  }

  /** The second scan of the barrier. */
  method CompletionFinalized(inbox: Inbox, m: Mark) returns (ok: bool)
    ensures ok <==> FinalizedAt(inbox, m)
  {
    var todo := inbox.Keys;
    var found: Option<nat> := None;
    while todo != {}
      invariant todo <= inbox.Keys
      invariant found.Some? ==> found.value !in todo && CompletedAt(inbox, found.value, m.pos) && inbox[found.value].delivery.next == m
      invariant forall id: nat :: CompletedAt(inbox, id, m.pos) && id !in todo ==> found == Some(id)
    {
      var id :| id in todo;
      if inbox[id].completed && inbox[id].delivery.next.pos == m.pos {
        assert CompletedAt(inbox, id, m.pos);
        if found.Some? || inbox[id].delivery.next != m {
          return false;
        }
        found := Some(id);
      }
      todo := todo - {id};
    }
    ok := found.Some? && inbox[found.value].finalized;
  }

  /** `id` comes first, in position order, among `ids`. */
  predicate First(inbox: Inbox, ids: set<nat>, id: nat)
    requires ids <= inbox.Keys
  {
    id in ids && forall k :: k in ids ==> inbox[id].delivery.next.pos <= inbox[k].delivery.next.pos
  }

  lemma {:induction false} FirstExists(inbox: Inbox, ids: set<nat>)
    requires ids <= inbox.Keys && ids != {}
    ensures exists id :: id in ids && First(inbox, ids, id)
    decreases ids
  {
    var a :| a in ids;
    var rest := ids - {a};
    if rest == {} {
      assert ids == {a};
      assert First(inbox, ids, a);
    } else {
      FirstExists(inbox, rest);
      var b :| b in rest && First(inbox, rest, b);
      assert forall k :: k in ids ==> k == a || k in rest;
      if inbox[a].delivery.next.pos <= inbox[b].delivery.next.pos {
        assert First(inbox, ids, a);
      } else {
        assert First(inbox, ids, b);
      }
    }
  }
}
