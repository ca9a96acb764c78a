/** How a paired cloud device identity reaches every component: a small lock protocol.

    Credentials are numbered in the order they are written; a component holds the device id of one of
    them.  The components are the runner, the orchestrator, the adapters and the status server, in the
    order they are set.  A pairing writes its credential before it asks for the lock, so any number of
    pairings may be waiting to apply theirs. */
module CloudIdentity {

  type Id = string

  /** What the lock protects: the status query of a refresh, or the component-by-component apply. */
  datatype Lock = Free | Querying | Applying(version: nat, next: nat, forPair: bool)

  /** `pending` holds the credentials written by pairings that have not applied them yet; `applied` is
      the credential every component held when the lock was last free. */
  datatype State = State(ids: seq<Id>, pending: set<nat>, lock: Lock, fleet: seq<Id>, applied: nat)

  datatype Step =
    | PairWrites(id: Id)        // the plugin stores fresh credentials, outside the lock
    | PairFails(version: nat)   // a pairing ends without an apply
    | CommandLinePair(id: Id)   // a pairing that never applies
    | PairLocks(version: nat)
    | RefreshLocks
    | RefreshAsks(answered: bool)
    | SetNext
    | Unlock

  predicate Enabled(s: State, step: Step) {
    match step
    case PairWrites(id) => id != ""
    case CommandLinePair(id) => id != ""
    case PairFails(v) => v in s.pending
    case PairLocks(v) => v in s.pending && s.lock.Free?
    case RefreshLocks => s.lock.Free?
    case RefreshAsks(_) => s.lock.Querying? && s.ids != [] && s.fleet != []
    case SetNext => s.lock.Applying? && s.lock.next < |s.fleet| && s.lock.version < |s.ids|
    case Unlock => s.lock.Applying? && s.lock.next == |s.fleet|
  }

  function Next(s: State, step: Step): State
    requires Enabled(s, step)
  {
    match step
    case PairWrites(id) => s.(ids := s.ids + [id], pending := s.pending + {|s.ids|})
    case CommandLinePair(id) => s.(ids := s.ids + [id])
    case PairFails(v) => s.(pending := s.pending - {v})
    case PairLocks(v) => s.(lock := Applying(v, 0, true), pending := s.pending - {v})
    case RefreshLocks => s.(lock := Querying)
    case RefreshAsks(answered) =>
      // an empty or unchanged id changes nothing; otherwise the answer is read from the current credential
      if !answered then s.(lock := Free)
      else if s.ids[|s.ids|-1] == s.fleet[0] then s.(lock := Free, applied := |s.ids| - 1)
      else s.(lock := Applying(|s.ids| - 1, 0, false))
    case SetNext => s.(fleet := s.fleet[s.lock.next := s.ids[s.lock.version]], lock := s.lock.(next := s.lock.next + 1))
    case Unlock => s.(lock := Free, applied := s.lock.version)
  }

  ghost predicate StepsTo(s: State, t: State) { exists step :: Enabled(s, step) && t == Next(s, step) }

  ghost predicate IsRun(run: seq<State>) {
    |run| > 0 && forall i :: 0 <= i < |run| - 1 ==> StepsTo(run[i], run[i+1])
  }

  // ---------------------------------------------------------------- the invariant

  ghost predicate Inv(s: State) {
    && s.applied < |s.ids| && s.fleet != []
    && (forall v :: v in s.pending ==> v < |s.ids|)
    && (!s.lock.Applying? ==> forall j :: 0 <= j < |s.fleet| ==> s.fleet[j] == s.ids[s.applied])
    && (s.lock.Applying? ==>
          && s.lock.version < |s.ids| && s.lock.next <= |s.fleet|
          && (!s.lock.forPair ==> s.applied <= s.lock.version)
          && (forall j :: 0 <= j < s.lock.next ==> s.fleet[j] == s.ids[s.lock.version])
          && (forall j :: s.lock.next <= j < |s.fleet| ==> s.fleet[j] == s.ids[s.applied]))
  }

  /** A step keeps the invariant; only a pairing's release of the lock can lower the applied credential. */
  lemma NextKeepsInv(s: State, step: Step)
    requires Inv(s) && Enabled(s, step)
    ensures Inv(Next(s, step))
    ensures s.ids <= Next(s, step).ids
    ensures Next(s, step).applied < s.applied ==> step.Unlock? && s.lock.forPair && s.lock.version < s.applied
  {
  }

  lemma {:induction false} RunKeepsInv(run: seq<State>, i: nat, j: nat)
    requires IsRun(run) && Inv(run[0]) && i <= j < |run|
    ensures Inv(run[i]) && Inv(run[j])
    ensures run[i].ids <= run[j].ids
    decreases j
  {
    if j > 0 {
      hide Inv, Enabled, Next;
      assert StepsTo(run[j-1], run[j-1+1]);
      var step :| Enabled(run[j-1], step) && run[j] == Next(run[j-1], step);
      RunKeepsInv(run, if i < j then i else i - 1, j - 1);
      NextKeepsInv(run[j-1], step);
    }
  }

  /** Whenever the lock is free, every component holds the same id. */
  lemma FreeMeansAgree(run: seq<State>, i: nat, a: nat, b: nat)
    requires IsRun(run) && Inv(run[0]) && i < |run| && run[i].lock.Free?
    requires a < |run[i].fleet| && b < |run[i].fleet|
    ensures run[i].fleet[a] == run[i].fleet[b]
  {
    RunKeepsInv(run, i, i);
  }

  // ---------------------------------------------------------------- when the identity goes back

  ghost predicate NeverLowered(run: seq<State>) {
    forall i, j :: 0 <= i <= j < |run| ==> run[i].applied <= run[j].applied
  }

  /** From step `l` a pairing holds the lock for credential `v`, and at step `u` it releases it. */
  ghost predicate PairApplies(run: seq<State>, l: nat, u: nat, v: nat) {
    && l < u < |run| - 1
    && !run[l].lock.Applying? && run[l+1].lock == Applying(v, 0, true)
    && (forall i :: l < i <= u ==> run[i].lock.Applying?) && run[u+1].lock.Free?
  }

  /** Every pairing that is completed took the lock for a credential no older than the one in force. */
  ghost predicate InOrder(run: seq<State>) {
    forall l: nat, u: nat, v: nat :: PairApplies(run, l, u, v) ==> run[l].applied <= v
  }

  /** While the lock is held for an apply, its credential and the credential in force stand still. */
  lemma {:induction false} HeldStandsStill(run: seq<State>, l: nat, i: nat)
    requires IsRun(run) && l < i < |run|
    requires !run[l].lock.Applying? && run[l+1].lock.Applying? && run[l+1].lock.forPair
    requires forall m :: l < m <= i ==> run[m].lock.Applying?
    ensures run[i].applied == run[l].applied
    ensures run[i].lock.version == run[l+1].lock.version && run[i].lock.forPair
    decreases i
  {
    assert StepsTo(run[i-1], run[i-1+1]);
    var step :| Enabled(run[i-1], step) && run[i] == Next(run[i-1], step);
    if i > l + 1 {
      HeldStandsStill(run, l, i - 1);
    }
  }

  /** A lock held for an apply was taken at some step of the run. */
  lemma {:induction false} LockWasTaken(run: seq<State>, i: nat) returns (l: nat)
    requires IsRun(run) && !run[0].lock.Applying? && i < |run| && run[i].lock.Applying?
    ensures l < i && !run[l].lock.Applying? && run[l+1].lock.Applying? && run[l+1].lock.next == 0
    ensures forall m :: l < m <= i ==> run[m].lock.Applying?
    ensures run[l+1].lock.forPair == run[i].lock.forPair
    decreases i
  {
    assert StepsTo(run[i-1], run[i-1+1]);
    var step :| Enabled(run[i-1], step) && run[i] == Next(run[i-1], step);
    if run[i-1].lock.Applying? {
      l := LockWasTaken(run, i - 1);
    } else {
      l := i - 1;
    }
  }

  lemma {:induction false} LoweredNowhere(run: seq<State>, i: nat, j: nat)
    requires forall k :: 0 <= k < |run| - 1 ==> run[k].applied <= run[k+1].applied
    requires i <= j < |run|
    ensures run[i].applied <= run[j].applied
    decreases j
  {
    if i < j {
      LoweredNowhere(run, i, j - 1);
      assert run[j-1].applied <= run[j-1+1].applied;
    }
  }

  /** Over any run, with any refreshes and command-line pairings beside any pairings: the credential in
      force never gets older exactly when every completed pairing takes the lock for one no older. */
  lemma NeverLoweredIffInOrder(run: seq<State>)
    requires IsRun(run) && Inv(run[0]) && !run[0].lock.Applying?
    ensures NeverLowered(run) <==> InOrder(run)
  {
    if NeverLowered(run) {
      forall l: nat, u: nat, v: nat | PairApplies(run, l, u, v) ensures run[l].applied <= v {
        HeldStandsStill(run, l, u);
        assert StepsTo(run[u], run[u+1]);
        assert run[u+1].applied == v;
      }
    }
    if InOrder(run) {
      forall k | 0 <= k < |run| - 1 ensures run[k].applied <= run[k+1].applied {
        StepNotLowered(run, k);
      }
      forall i, j | 0 <= i <= j < |run| ensures run[i].applied <= run[j].applied {
        LoweredNowhere(run, i, j);
      }
    }
  }

  lemma StepNotLowered(run: seq<State>, k: nat)
    requires IsRun(run) && Inv(run[0]) && !run[0].lock.Applying? && InOrder(run) && k < |run| - 1
    ensures run[k].applied <= run[k+1].applied
  {
    RunKeepsInv(run, k, k);
    assert StepsTo(run[k], run[k+1]);
    var step :| Enabled(run[k], step) && run[k+1] == Next(run[k], step);
    NextKeepsInv(run[k], step);
    if step.Unlock? && run[k].lock.forPair {
      var l := LockWasTaken(run, k);
      HeldStandsStill(run, l, k);
      assert PairApplies(run, l, k, run[k].lock.version);
    }
  }

  /** Every pairing, completed or not, takes the lock for a credential no older than the one in force. */
  ghost predicate TakenInOrder(run: seq<State>) {
    forall l :: 0 <= l < |run| - 1 && !run[l].lock.Applying? && run[l+1].lock.Applying? && run[l+1].lock.forPair ==>
      run[l].applied <= run[l+1].lock.version
  }

  lemma TakenInOrderIsInOrder(run: seq<State>)
    requires TakenInOrder(run)
    ensures InOrder(run)
  {
    forall l: nat, u: nat, v: nat | PairApplies(run, l, u, v) ensures run[l].applied <= v {
      assert run[l+1].lock.version == v;
    }
  }

  /** Then no component ever shows an older credential than one in force before. */
  lemma NeverGoesBack(run: seq<State>, i: nat, j: nat, c: nat)
    requires IsRun(run) && Inv(run[0]) && !run[0].lock.Applying? && TakenInOrder(run)
    requires i <= j < |run| && c < |run[j].fleet|
    ensures exists v :: run[i].applied <= v < |run[j].ids| && run[j].fleet[c] == run[j].ids[v]
  {
    RunKeepsInv(run, i, j);
    TakenInOrderIsInOrder(run);
    NeverLoweredIffInOrder(run);
    var s := run[j];
    if s.lock.Applying? && c < s.lock.next {
      if s.lock.forPair {
        var l := LockWasTaken(run, j);
        HeldStandsStill(run, l, j);
        assert run[l].applied <= run[l+1].lock.version;
      }
      assert s.fleet[c] == s.ids[s.lock.version];
    } else {
      assert s.fleet[c] == s.ids[s.applied];
    }
  }

  /** A pairing that has applied its credential is in force from then on. */
  lemma PairTakesHold(run: seq<State>, l: nat, u: nat, v: nat, j: nat, c: nat)
    requires IsRun(run) && Inv(run[0]) && !run[0].lock.Applying? && TakenInOrder(run)
    requires PairApplies(run, l, u, v) && u < j < |run| && c < |run[j].fleet|
    ensures exists w :: v <= w < |run[j].ids| && run[j].fleet[c] == run[j].ids[w]
  {
    HeldStandsStill(run, l, u);
    assert StepsTo(run[u], run[u+1]);
    assert run[u+1].applied == v;
    NeverGoesBack(run, u + 1, j, c);
  }

  /** A refresh that got its answer shows, when it releases the lock, the newest credential there was when
      it asked; one that got none leaves every component as it was. */
  lemma RefreshTakesHold(run: seq<State>, l: nat, u: nat, answered: bool, c: nat)
    requires IsRun(run) && Inv(run[0]) && l < u < |run|
    requires Enabled(run[l], RefreshAsks(answered)) && run[l+1] == Next(run[l], RefreshAsks(answered))
    requires (forall i :: l < i < u ==> run[i].lock.Applying?) && run[u].lock.Free? && c < |run[u].fleet|
    ensures |run[u].fleet| == |run[l].fleet|
    ensures run[u].fleet[c] == if answered then run[l].ids[|run[l].ids|-1] else run[l].fleet[c]
    ensures answered ==> run[u].applied == |run[l].ids| - 1
  {
    RunKeepsInv(run, l, u);
    if u > l + 1 {
      assert run[l+1].lock.Applying?;
      RefreshHolds(run, l, u - 1);
      assert StepsTo(run[u-1], run[u-1+1]);
      RunKeepsInv(run, u - 1, u);
    }
  }

  lemma {:induction false} RefreshHolds(run: seq<State>, l: nat, i: nat)
    requires IsRun(run) && Inv(run[0]) && l < i < |run|
    requires Enabled(run[l], RefreshAsks(true)) && run[l+1] == Next(run[l], RefreshAsks(true))
    requires forall m :: l < m <= i ==> run[m].lock.Applying?
    ensures run[i].lock.version == |run[l].ids| - 1 && |run[i].fleet| == |run[l].fleet|
    ensures run[l].ids <= run[i].ids
    decreases i
  {
    RunKeepsInv(run, l, i);
    if i > l + 1 {
      RefreshHolds(run, l, i - 1);
      assert StepsTo(run[i-1], run[i-1+1]);
    }
  }

  // ---------------------------------------------------------------- pairings issued one after another

  predicate UnderWay(s: State) { s.pending != {} || (s.lock.Applying? && s.lock.forPair) }

  /** No credential is written while a pairing is under way. */
  ghost predicate OneAtATime(run: seq<State>) {
    forall k :: 0 <= k < |run| - 1 && UnderWay(run[k]) ==> run[k+1].ids == run[k].ids
  }

  ghost predicate Newest(s: State) {
    && (s.pending == {} || s.pending == {|s.ids| - 1})
    && (s.lock.Applying? && s.lock.forPair ==> s.pending == {} && s.lock.version == |s.ids| - 1)
  }

  lemma {:induction false} OnlyNewestWaits(run: seq<State>, i: nat)
    requires IsRun(run) && Inv(run[0]) && !UnderWay(run[0]) && OneAtATime(run) && i < |run|
    ensures Newest(run[i])
  {
    if i > 0 {
      OnlyNewestWaits(run, i - 1);
      RunKeepsInv(run, i - 1, i - 1);
      assert StepsTo(run[i-1], run[i-1+1]);
      assert UnderWay(run[i-1]) ==> run[i-1+1].ids == run[i-1].ids;
      var step :| Enabled(run[i-1], step) && run[i] == Next(run[i-1], step);
      NewestStays(run[i-1], step);
    }
  }

  lemma NewestStays(s: State, step: Step)
    requires Inv(s) && Newest(s) && Enabled(s, step)
    requires UnderWay(s) ==> Next(s, step).ids == s.ids
    ensures Newest(Next(s, step))
  {
    if step.PairLocks? {
      assert s.pending == {|s.ids| - 1} && step.version == |s.ids| - 1;
      assert s.pending - {step.version} == {};
    }
    if step.PairFails? {
      assert s.pending == {|s.ids| - 1};
      assert s.pending - {step.version} == {};
    }
    if step.PairWrites? || step.CommandLinePair? {
      assert |s.ids + [step.id]| != |s.ids|;
      assert !UnderWay(s);
    }
  }

  /** Pairings issued one after another take the lock in order, whatever refreshes run beside them. */
  lemma OneAtATimeIsInOrder(run: seq<State>)
    requires IsRun(run) && Inv(run[0]) && !run[0].lock.Applying? && !UnderWay(run[0]) && OneAtATime(run)
    ensures TakenInOrder(run) && NeverLowered(run)
  {
    forall l | 0 <= l < |run| - 1 && !run[l].lock.Applying? && run[l+1].lock.Applying? && run[l+1].lock.forPair
      ensures run[l].applied <= run[l+1].lock.version
    {
      OnlyNewestWaits(run, l + 1);
      RunKeepsInv(run, l, l + 1);
      assert StepsTo(run[l], run[l+1]);
    }
    TakenInOrderIsInOrder(run);
    NeverLoweredIffInOrder(run);
  }

  // ---------------------------------------------------------------- two pairings that overlap

  /** Two pairings write `b` and then `c`; the one for `c` takes the lock first. */
  function OverlappingRun(a: Id, b: Id, c: Id): seq<State> {
    var ids := [a, b, c];
    [ State([a], {}, Free, [a], 0),
      State([a, b], {1}, Free, [a], 0),
      State(ids, {1, 2}, Free, [a], 0),
      State(ids, {1}, Applying(2, 0, true), [a], 0),
      State(ids, {1}, Applying(2, 1, true), [c], 0),
      State(ids, {1}, Free, [c], 2),
      State(ids, {}, Applying(1, 0, true), [c], 2),
      State(ids, {}, Applying(1, 1, true), [b], 2),
      State(ids, {}, Free, [b], 1) ]
  }

  function OverlappingSteps(b: Id, c: Id): seq<Step> {
    [PairWrites(b), PairWrites(c), PairLocks(2), SetNext, Unlock, PairLocks(1), SetNext, Unlock]
  }

  /** A run from a sound start, in which the older of two overlapping pairings takes the identity back. */
  lemma OverlappingPairingsGoBack(a: Id, b: Id, c: Id)
    requires b != "" && c != ""
    ensures var run := OverlappingRun(a, b, c);
      && IsRun(run) && Inv(run[0]) && !run[0].lock.Applying?
      && run[5].lock.Free? && run[5].fleet == [c] && run[8].lock.Free? && run[8].fleet == [b]
      && !NeverLowered(run) && !InOrder(run)
  {
    var run, steps := OverlappingRun(a, b, c), OverlappingSteps(b, c);
    forall i | 0 <= i < |run| - 1 ensures StepsTo(run[i], run[i+1]) {
      OverlappingStep(a, b, c, i);
      assert Enabled(run[i], steps[i]) && run[i+1] == Next(run[i], steps[i]);
    }
    assert run[8].applied < run[5].applied;
    NeverLoweredIffInOrder(run);
  }

  lemma OverlappingStep(a: Id, b: Id, c: Id, i: nat)
    requires b != "" && c != "" && i < 8
    ensures var run, steps := OverlappingRun(a, b, c), OverlappingSteps(b, c);
      Enabled(run[i], steps[i]) && run[i+1] == Next(run[i], steps[i])
  {
    assert [a] + [b] == [a, b] && [a, b] + [c] == [a, b, c];
    assert {} + {1} == {1} && {1} + {2} == {1, 2} && {1, 2} - {2} == {1};
    assert [a][0 := c] == [c] && [c][0 := b] == [b];
  }

  // ---------------------------------------------------------------- the code

  /** Sets every component in turn; an empty id must not erase a known one.  Under the lock this is a run
      of the machine from `s`. */
  method ApplyIdentityLocked(id: Id, fleet: array<Id>, ghost s: State) returns (ghost run: seq<State>)
    requires s.fleet == fleet[..] && (id != "" ==> s.lock.Applying? && s.lock.next == 0 && s.lock.version < |s.ids|)
    requires id != "" ==> s.ids[s.lock.version] == id
    modifies fleet
    ensures forall c :: 0 <= c < fleet.Length ==> fleet[c] == if id == "" then old(fleet[c]) else id
    ensures IsRun(run) && run[0] == s && run[|run|-1].fleet == fleet[..]
    ensures id != "" ==> Enabled(run[|run|-1], Unlock)
  {
    run := [s];
    if id == "" {
      return;
    }
    for c := 0 to fleet.Length
      invariant forall k :: 0 <= k < c ==> fleet[k] == id
      invariant IsRun(run) && run[0] == s
      invariant run[|run|-1] == s.(fleet := fleet[..], lock := s.lock.(next := c))
    {
      ghost var last := run[|run|-1];
      fleet[c] := id;
      assert Enabled(last, SetNext);
      assert Next(last, SetNext) == s.(fleet := fleet[..], lock := s.lock.(next := c + 1));
      run := run + [Next(last, SetNext)];
    }
  }
}
