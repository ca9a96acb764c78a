/** The sweep over every conversation, behind the memoized peer guard. */
module RepairSweep {
  import opened Transcript
  import opened CollapseEvents

  /** What the store holds for an artifact's main-branch head. */
  datatype Head = Missing | OtherFormat | Unreadable | Conversation(events: seq<ConvEvent>)

  datatype RepairError = NoError | Failed | GuardRefused

  /** The --check-peers guard.  `answers(n)` is what the n-th query would say: true refuses (a live
      pairing, or no answer at all). */
  class PeerGuard {
    const checkPeers: bool
    const force: bool
    const answers: nat -> bool
    var done: bool
    var refused: bool
    var queries: nat

    constructor (checkPeers: bool, force: bool, answers: nat -> bool)
      ensures Valid() && queries == 0
      ensures this.checkPeers == checkPeers && this.force == force && this.answers == answers
    {
      this.checkPeers, this.force, this.answers := checkPeers, force, answers;
      done, refused, queries := false, false, 0;
    }

    /** One verdict for the whole command: the fleet is asked at most once. */
    predicate Refuses() { checkPeers && !force && answers(0) }

    ghost predicate Valid()
      reads this
    {
      && queries == (if done && !force then 1 else 0)
      && (done ==> checkPeers)
      && refused == (done && Refuses())
    }

    method Check() returns (refuse: bool)
      requires Valid()
      modifies this
      ensures Valid() && refuse == Refuses()
      ensures refuse <==> checkPeers && !force && answers(0)
      ensures queries == if checkPeers && !force then 1 else 0
    {
      if !checkPeers {
        return false;
      }
      if done {
        return refused;
      }
      done := true;
      if force {
        return false;
      }
      refused := answers(queries);
      queries := queries + 1;
      return refused;
    }
  }

  class ConversationStore {
    var heads: map<int, Head>
    var writes: seq<int>
  }

  function HeadOf(heads: map<int, Head>, id: int): Head {
    if id in heads then heads[id] else Missing
  }

  predicate NeedsRepair(h: Head, norm: Normalizer) {
    h.Conversation? && Repaired(h.events, norm) != h.events
  }

  function RepairedHead(h: Head, norm: Normalizer): Head {
    if NeedsRepair(h, norm) then Conversation(Repaired(h.events, norm)) else h
  }

  /** For each artifact, whether listing its side branches fails, and whether the backup, the encoding or
      the append of its repair does. */
  datatype Trouble = Trouble(listing: int -> bool, writing: int -> bool)

  /** The proposed repair is printed, and with --apply the guard is asked. */
  predicate Proposes(h: Head, id: int, norm: Normalizer, t: Trouble) { NeedsRepair(h, norm) && !t.listing(id) }

  predicate Repairs(h: Head, id: int, norm: Normalizer, t: Trouble, apply: bool) {
    Proposes(h, id, norm, t) && !(apply && t.writing(id))
  }

  predicate Fails(h: Head, id: int, norm: Normalizer, t: Trouble, apply: bool) {
    h.Unreadable? || (NeedsRepair(h, norm) && (t.listing(id) || (apply && t.writing(id))))
  }

  /** Whatever it holds, a conversation's head is repaired to its repaired events, and any other head stays. */
  lemma RepairedHeadIs(h: Head, norm: Normalizer)
    ensures RepairedHead(h, norm) == if h.Conversation? then Conversation(Repaired(h.events, norm)) else h
  {
  }

  /** How one artifact ends: its error, whether a change is reported, and whether its repair is written. */
  datatype Ending = Ending(err: RepairError, changed: bool, written: bool)

  /** A quiet conversation is left; one to repair needs its listing, then (to apply) the guard's consent, then
      its write. */
  function EndingOf(h: Head, norm: Normalizer, all: bool, apply: bool, listing: bool, refuses: bool, writing: bool): Ending {
    match h
    case Unreadable => Ending(Failed, false, false)
    case Missing => Ending(if all then NoError else Failed, false, false)
    case OtherFormat => Ending(if all then NoError else Failed, false, false)
    case Conversation(events) =>
      if Repaired(events, norm) == events then Ending(NoError, false, false)
      else if listing then Ending(Failed, false, false)
      else if !apply then Ending(NoError, true, false)
      else if refuses then Ending(GuardRefused, false, false)
      else if writing then Ending(Failed, false, false)
      else Ending(NoError, true, true)
  }

  /** One artifact.  The cross-check of the two projections never refuses. */
  method RepairOneConversation(store: ConversationStore, id: int, guard: PeerGuard, norm: Normalizer, all: bool, apply: bool, t: Trouble)
    returns (changed: bool, err: RepairError)
    requires guard.Valid()
    modifies store, guard
    ensures guard.Valid()
    ensures !apply || !Proposes(HeadOf(old(store.heads), id), id, norm, t) ==> guard.queries == old(guard.queries)
    ensures var head := HeadOf(old(store.heads), id);
      var write := apply && Repairs(head, id, norm, t, apply) && !guard.Refuses();
      && err == (if !all && (head.Missing? || head.OtherFormat?) then Failed
                 else if apply && Proposes(head, id, norm, t) && guard.Refuses() then GuardRefused
                 else if Fails(head, id, norm, t, apply) then Failed else NoError)
      && changed == (Repairs(head, id, norm, t, apply) && err == NoError)
      && store.heads == (if write then old(store.heads)[id := RepairedHead(head, norm)] else old(store.heads))
      && store.writes == (if write then old(store.writes) + [id] else old(store.writes))
    ensures var head := HeadOf(old(store.heads), id);
      var ending := EndingOf(head, norm, all, apply, t.listing(id), guard.Refuses(), t.writing(id));
      && err == ending.err && changed == ending.changed
      && (!ending.written ==> store.heads == old(store.heads))
      && (ending.written ==> head.Conversation? && store.heads == old(store.heads)[id := Conversation(Repaired(head.events, norm))])
  {
    hide Repaired, RepairedTurns, ExtractTextTurns;
    match HeadOf(store.heads, id) {
      case Unreadable => return false, Failed;
      case Missing => return false, if all then NoError else Failed;
      case OtherFormat => return false, if all then NoError else Failed;
      case Conversation(events) =>
        var afterTurns, turnsChanged := CollapseDuplicateConversationTurns(events, norm);
        var collapsed, _ := CollapseConversationEvents(events, norm);
        ProjectionsAgree(events, norm);
        ChangedTogether(events, norm);
        if ExtractTextTurns(collapsed, norm) != afterTurns {
          assert false;
          return false, Failed;
        }
        if !turnsChanged {
          return false, NoError;
        }
        if t.listing(id) {
          return false, Failed;
        }
        if !apply {
          return true, NoError;
        }
        var refuse := guard.Check();
        if refuse {
          return false, GuardRefused;
        }
        if t.writing(id) {
          return false, Failed;
        }
        store.writes := store.writes + [id];
        store.heads := store.heads[id := Conversation(collapsed)];
        return true, NoError;
    }
  }

  function CountProposed(heads: map<int, Head>, ids: seq<int>, norm: Normalizer, t: Trouble): nat {
    if ids == [] then 0
    else
      var id := ids[|ids|-1];
      CountProposed(heads, ids[..|ids|-1], norm, t) + (if Proposes(HeadOf(heads, id), id, norm, t) then 1 else 0)
  }

  function CountRepaired(heads: map<int, Head>, ids: seq<int>, norm: Normalizer, t: Trouble, apply: bool): nat {
    if ids == [] then 0
    else
      var id := ids[|ids|-1];
      CountRepaired(heads, ids[..|ids|-1], norm, t, apply) + (if Repairs(HeadOf(heads, id), id, norm, t, apply) then 1 else 0)
  }

  function CountFailed(heads: map<int, Head>, ids: seq<int>, norm: Normalizer, t: Trouble, apply: bool): nat {
    if ids == [] then 0
    else
      var id := ids[|ids|-1];
      CountFailed(heads, ids[..|ids|-1], norm, t, apply) + (if Fails(HeadOf(heads, id), id, norm, t, apply) then 1 else 0)
  }

  /** The heads after repairing every listed conversation that no trouble keeps from it. */
  function Swept(heads: map<int, Head>, ids: seq<int>, norm: Normalizer, t: Trouble): map<int, Head> {
    map id | id in heads :: if id in ids && Repairs(heads[id], id, norm, t, true) then RepairedHead(heads[id], norm) else heads[id]
  }

  /** The artifacts repaired, in the order they are listed. */
  function RepairedIds(heads: map<int, Head>, ids: seq<int>, norm: Normalizer, t: Trouble): (out: seq<int>)
    ensures |out| == CountRepaired(heads, ids, norm, t, true)
    ensures forall id :: id in out <==> id in ids && Repairs(HeadOf(heads, id), id, norm, t, true)
  {
    if ids == [] then []
    else
      var id := ids[|ids|-1];
      assert ids == ids[..|ids|-1] + [id];
      RepairedIds(heads, ids[..|ids|-1], norm, t) + (if Repairs(HeadOf(heads, id), id, norm, t, true) then [id] else [])
  }

  /** No artifact before `i` has been written to or refused; the rest is as it was. */
  ghost predicate SweptTo(heads: map<int, Head>, now: map<int, Head>, ids: seq<int>, i: nat, norm: Normalizer, t: Trouble, apply: bool, refuses: bool)
    requires i <= |ids|
  {
    && now == (if apply && !refuses then Swept(heads, ids[..i], norm, t) else heads)
    && (apply && refuses ==> CountProposed(heads, ids[..i], norm, t) == 0)
  }

  /** The first proposed repair is the k-th, and `failed` artifacts before it have failed. */
  ghost predicate StopsAt(heads: map<int, Head>, ids: seq<int>, k: nat, norm: Normalizer, t: Trouble, failed: nat) {
    && k < |ids| && Proposes(HeadOf(heads, ids[k]), ids[k], norm, t) && CountProposed(heads, ids[..k], norm, t) == 0
    && failed == CountFailed(heads, ids[..k], norm, t, true)
  }

  /** The --all sweep: a refusing guard stops it at the first proposed repair, with nothing written;
      otherwise exactly the listed conversations that need it and meet no trouble are repaired, and every
      other failure is counted. */
  method RepairAllConversations(store: ConversationStore, ids: seq<int>, guard: PeerGuard, norm: Normalizer, apply: bool, t: Trouble)
    returns (repaired: nat, failed: nat, err: RepairError)
    requires guard.Valid()
    requires forall i, j :: 0 <= i < j < |ids| ==> ids[i] != ids[j]
    modifies store, guard
    ensures guard.Valid() && guard.queries <= 1
    ensures !apply ==> guard.queries == old(guard.queries)
    ensures !apply || guard.Refuses() ==> store.heads == old(store.heads) && store.writes == old(store.writes)
    ensures err == GuardRefused <==> apply && guard.Refuses() && CountProposed(old(store.heads), ids, norm, t) > 0
    ensures err == GuardRefused ==> repaired == 0 && exists k: nat :: StopsAt(old(store.heads), ids, k, norm, t, failed)
    ensures apply && !guard.Refuses() ==> store.heads == Swept(old(store.heads), ids, norm, t)
    ensures apply && !guard.Refuses() ==> store.writes == old(store.writes) + RepairedIds(old(store.heads), ids, norm, t)
    ensures store.heads.Keys == old(store.heads).Keys
    ensures forall id :: id in old(store.heads) ==>
              store.heads[id] == if apply && !guard.Refuses() && id in ids && old(store.heads)[id].Conversation?
                                    && !t.listing(id) && !t.writing(id)
                                 then Conversation(Repaired(old(store.heads)[id].events, norm)) else old(store.heads)[id]
    ensures err != GuardRefused ==>
      && repaired == CountRepaired(old(store.heads), ids, norm, t, apply)
      && failed == CountFailed(old(store.heads), ids, norm, t, apply)
      && err == if failed > 0 then Failed else NoError
  {
    hide Proposes, Repairs, Fails, NeedsRepair, Swept, CountProposed, CountRepaired, CountFailed, SweptTo, RepairedHead, StopsAt,
         RepairedIds, Repaired, EndingOf;
    repaired, failed := 0, 0;
    ghost var heads, writes := store.heads, store.writes;
    SweepStart(heads, ids, norm, t, apply, guard.Refuses());
    var i := 0;
    while i < |ids|
      invariant 0 <= i <= |ids| && guard.Valid()
      invariant !apply ==> guard.queries == old(guard.queries)
      invariant SweptTo(heads, store.heads, ids, i, norm, t, apply, guard.Refuses())
      invariant store.writes == writes + (if apply && !guard.Refuses() then RepairedIds(heads, ids[..i], norm, t) else [])
      invariant repaired == CountRepaired(heads, ids[..i], norm, t, apply)
      invariant failed == CountFailed(heads, ids[..i], norm, t, apply)
    {
      SweepStep(heads, store.heads, ids, i, norm, t, apply, guard.Refuses());
      var changed, rerr := RepairOneConversation(store, ids[i], guard, norm, true, apply, t);
      if rerr == GuardRefused {
        SweepAborts(heads, ids, i, norm, t);
        SweepStops(heads, store.heads, ids, i, norm, t, failed);
        return repaired, failed, rerr;
      }
      if rerr != NoError {
        failed := failed + 1;
      } else if changed {
        repaired := repaired + 1;
      }
      i := i + 1;
    }
    SweepEnd(heads, store.heads, ids, norm, t, apply, guard.Refuses());
    SweptHeads(heads, ids, norm, t);
    err := if failed > 0 then Failed else NoError;
  }

  /** What a sweep does to each head, told without the sweep. */
  lemma SweptHeads(heads: map<int, Head>, ids: seq<int>, norm: Normalizer, t: Trouble)
    ensures Swept(heads, ids, norm, t).Keys == heads.Keys
    ensures forall id :: id in heads ==>
              Swept(heads, ids, norm, t)[id]
              == if id in ids && heads[id].Conversation? && !t.listing(id) && !t.writing(id)
                 then Conversation(Repaired(heads[id].events, norm)) else heads[id]
  {
    hide Repaired;
  }

  lemma SweepStart(heads: map<int, Head>, ids: seq<int>, norm: Normalizer, t: Trouble, apply: bool, refuses: bool)
    ensures SweptTo(heads, heads, ids, 0, norm, t, apply, refuses)
    ensures CountRepaired(heads, ids[..0], norm, t, apply) == 0 && CountFailed(heads, ids[..0], norm, t, apply) == 0
    ensures RepairedIds(heads, ids[..0], norm, t) == []
  {
    assert Swept(heads, [], norm, t) == heads;
  }

  lemma SweepStep(heads: map<int, Head>, now: map<int, Head>, ids: seq<int>, i: nat, norm: Normalizer, t: Trouble, apply: bool, refuses: bool)
    requires i < |ids| && forall i, j :: 0 <= i < j < |ids| ==> ids[i] != ids[j]
    requires SweptTo(heads, now, ids, i, norm, t, apply, refuses)
    ensures HeadOf(now, ids[i]) == HeadOf(heads, ids[i])
    ensures !apply || refuses ==> now == heads
    ensures CountRepaired(heads, ids[..i+1], norm, t, apply)
         == CountRepaired(heads, ids[..i], norm, t, apply) + (if Repairs(HeadOf(now, ids[i]), ids[i], norm, t, apply) then 1 else 0)
    ensures CountFailed(heads, ids[..i+1], norm, t, apply)
         == CountFailed(heads, ids[..i], norm, t, apply) + (if Fails(HeadOf(now, ids[i]), ids[i], norm, t, apply) then 1 else 0)
    ensures RepairedIds(heads, ids[..i+1], norm, t)
         == RepairedIds(heads, ids[..i], norm, t) + (if Repairs(HeadOf(now, ids[i]), ids[i], norm, t, true) then [ids[i]] else [])
    ensures Repairs(HeadOf(now, ids[i]), ids[i], norm, t, apply) ==>
              HeadOf(now, ids[i]).Conversation? && !Fails(HeadOf(now, ids[i]), ids[i], norm, t, apply)
    ensures var head := HeadOf(now, ids[i]);
      !(apply && refuses && Proposes(head, ids[i], norm, t)) ==>
      SweptTo(heads, if apply && Repairs(head, ids[i], norm, t, apply) && !refuses then now[ids[i] := RepairedHead(head, norm)] else now,
              ids, i + 1, norm, t, apply, refuses)
  {
    assert ids[..i+1][..i] == ids[..i];
    assert ids[..i+1] == ids[..i] + [ids[i]];
    assert ids[i] !in ids[..i];
    hide NeedsRepair;
    SweptOneMore(heads, ids, i, norm, t);
  }

  lemma {:induction false} SweepAborts(heads: map<int, Head>, ids: seq<int>, i: nat, norm: Normalizer, t: Trouble)
    requires i < |ids| && Proposes(HeadOf(heads, ids[i]), ids[i], norm, t)
    ensures CountProposed(heads, ids, norm, t) > 0
  {
    if i < |ids| - 1 {
      SweepAborts(heads, ids[..|ids|-1], i, norm, t);
    }
  }

  lemma SweepStops(heads: map<int, Head>, now: map<int, Head>, ids: seq<int>, i: nat, norm: Normalizer, t: Trouble, failed: nat)
    requires i < |ids| && Proposes(HeadOf(heads, ids[i]), ids[i], norm, t)
    requires SweptTo(heads, now, ids, i, norm, t, true, true) && failed == CountFailed(heads, ids[..i], norm, t, true)
    ensures StopsAt(heads, ids, i, norm, t, failed) && CountRepaired(heads, ids[..i], norm, t, true) == 0
  {
    NoneProposedNoneRepaired(heads, ids[..i], norm, t);
  }

  lemma {:induction false} NoneProposedNoneRepaired(heads: map<int, Head>, ids: seq<int>, norm: Normalizer, t: Trouble)
    requires CountProposed(heads, ids, norm, t) == 0
    ensures CountRepaired(heads, ids, norm, t, true) == 0
  {
    if ids != [] {
      NoneProposedNoneRepaired(heads, ids[..|ids|-1], norm, t);
    }
  }

  lemma SweepEnd(heads: map<int, Head>, now: map<int, Head>, ids: seq<int>, norm: Normalizer, t: Trouble, apply: bool, refuses: bool)
    requires SweptTo(heads, now, ids, |ids|, norm, t, apply, refuses)
    ensures ids[..|ids|] == ids
    ensures now == if apply && !refuses then Swept(heads, ids, norm, t) else heads
    ensures apply && refuses ==> CountProposed(heads, ids, norm, t) == 0
  {
    assert ids[..|ids|] == ids;
  }

  lemma SweptOneMore(heads: map<int, Head>, ids: seq<int>, i: nat, norm: Normalizer, t: Trouble)
    requires i < |ids| && ids[i] !in ids[..i]
    ensures var id := ids[i];
      Swept(heads, ids[..i+1], norm, t)
      == if Repairs(HeadOf(heads, id), id, norm, t, true) then Swept(heads, ids[..i], norm, t)[id := RepairedHead(HeadOf(heads, id), norm)]
         else Swept(heads, ids[..i], norm, t)
  {
    assert ids[..i+1] == ids[..i] + [ids[i]];
  }
}
