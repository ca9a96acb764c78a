/** The agent-detail feed: it keeps only the `limit` newest events seen so far and stops at the first
    artifact whose last update is no later than the oldest event it keeps. */
module AgentFeed {
  import opened FeedOrder

  datatype AgentEvent = AgentEvent(at: int, detail: int)

  /** An artifact of the store: whether the agent owns its source, whether it receives it, its metadata
      timestamp and its event log. */
  datatype AgentArtifact = AgentArtifact(sourceOwned: bool, received: bool, updatedAt: int, log: seq<AgentEvent>)

  /** An attributed artifact. */
  datatype Candidate = Candidate(updatedAt: int, log: seq<AgentEvent>)

  function At(e: AgentEvent): int { e.at }

  function UpdatedAt(c: Candidate): int { c.updatedAt }

  /** Every event of every candidate. */
  function Merged(cands: seq<Candidate>): seq<AgentEvent> {
    if cands == [] then [] else Merged(cands[..|cands|-1]) + cands[|cands|-1].log
  }

  /** `out` is newest first and holds `limit` of `all` (or all of them), none older than one left out. */
  ghost predicate IsTop(out: seq<AgentEvent>, all: seq<AgentEvent>, limit: int) {
    && Descending(out, At)
    && multiset(out) <= multiset(all)
    && |out| == (if |all| < limit then |all| else limit)
    && forall e, o :: multiset(out)[e] < multiset(all)[e] && o in out ==> o.at >= e.at
  }

  /** `evs` loses an event of `all` only when it holds `limit` events at least as new. */
  ghost predicate Kept(evs: seq<AgentEvent>, all: seq<AgentEvent>, limit: int) {
    && multiset(evs) <= multiset(all)
    && forall e :: multiset(evs)[e] < multiset(all)[e] ==> CountAbove(evs, At, e.at - 1) >= limit
  }

  /** The events read so far fill the feed with events no older than the next candidate's update. */
  predicate Full(cands: seq<Candidate>, k: nat, limit: int)
    requires k < |cands|
  {
    CountAbove(Merged(cands[..k]), At, cands[k].updatedAt - 1) >= limit
  }

  /** How many candidates the feed reads, from `k` on. */
  function ReadUpTo(cands: seq<Candidate>, k: nat, limit: int): (n: nat)
    requires k <= |cands|
    ensures k <= n <= |cands|
    ensures n < |cands| ==> Full(cands, n, limit)
    decreases |cands| - k
  {
    if k == |cands| || Full(cands, k, limit) then k else ReadUpTo(cands, k + 1, limit)
  }

  method SortByTime(evs: seq<AgentEvent>) returns (sorted: seq<AgentEvent>)
    ensures Descending(sorted, At) && multiset(sorted) == multiset(evs)
  {
    sorted := [];
    var i := 0;
    while i < |evs|
      invariant 0 <= i <= |evs|
      invariant Descending(sorted, At) && multiset(sorted) == multiset(evs[..i])
    {
      assert evs[..i+1] == evs[..i] + [evs[i]];
      sorted := InsertByKey(evs[i], sorted, At);
      i := i + 1;
    }
    assert evs[..i] == evs;
  }

  /** The artifacts the agent owns, and those it receives while its sync gate is open. */
  function Attributed(arts: seq<AgentArtifact>, receiveEnabled: bool): seq<Candidate> {
    if arts == [] then []
    else
      var front, a := Attributed(arts[..|arts|-1], receiveEnabled), arts[|arts|-1];
      if a.sourceOwned || (a.received && receiveEnabled) then front + [Candidate(a.updatedAt, a.log)] else front
  }

  /** Owned, or received through an open gate. */
  predicate Belongs(a: AgentArtifact, receiveEnabled: bool) {
    if receiveEnabled then a.sourceOwned || a.received else a.sourceOwned
  }

  /** The candidates are the artifacts that belong, each once and in order, and no other. */
  lemma {:induction false} AttributedPositions(arts: seq<AgentArtifact>, receiveEnabled: bool) returns (p: seq<nat>)
    ensures |p| == |Attributed(arts, receiveEnabled)|
    ensures forall j, k :: 0 <= j < k < |p| ==> p[j] < p[k]
    ensures forall k :: 0 <= k < |p| ==>
              p[k] < |arts| && Attributed(arts, receiveEnabled)[k] == Candidate(arts[p[k]].updatedAt, arts[p[k]].log)
    ensures forall i: nat :: i < |arts| ==> (i in p <==> Belongs(arts[i], receiveEnabled))
  {
    if arts == [] {
      p := [];
    } else {
      var n := |arts| - 1;
      p := AttributedPositions(arts[..n], receiveEnabled);
      if Belongs(arts[n], receiveEnabled) {
        p := p + [n];
      }
    }
  }

  /** Some artifact that belongs holds the event. */
  ghost predicate ShownFrom(arts: seq<AgentArtifact>, receiveEnabled: bool, e: AgentEvent) {
    exists i :: 0 <= i < |arts| && Belongs(arts[i], receiveEnabled) && e in arts[i].log
  }

  lemma {:induction false} MergedFrom(cands: seq<Candidate>, n: nat, e: AgentEvent) returns (k: nat)
    requires n <= |cands| && e in Merged(cands[..n])
    ensures k < n && e in cands[k].log
    decreases n
  {
    assert cands[..n][..n-1] == cands[..n-1];
    if e in cands[n-1].log {
      k := n - 1;
    } else {
      k := MergedFrom(cands, n - 1, e);
    }
  }

  lemma ShownBelongs(arts: seq<AgentArtifact>, receiveEnabled: bool, cands: seq<Candidate>, n: nat, out: seq<AgentEvent>, e: AgentEvent)
    requires multiset(cands) == multiset(Attributed(arts, receiveEnabled)) && n <= |cands|
    requires multiset(out) <= multiset(Merged(cands[..n])) && e in out
    ensures ShownFrom(arts, receiveEnabled, e)
  {
    hide Attributed;
    assert e in multiset(out);
    var k := MergedFrom(cands, n, e);
    assert cands[k] in multiset(cands);
    var p := AttributedPositions(arts, receiveEnabled);
    var j :| 0 <= j < |p| && Attributed(arts, receiveEnabled)[j] == cands[k];
    assert p[j] in p;
  }

  method GatherCandidates(arts: seq<AgentArtifact>, receiveEnabled: bool) returns (cands: seq<Candidate>)
    ensures cands == Attributed(arts, receiveEnabled)
  {
    cands := [];
    for i := 0 to |arts|
      invariant cands == Attributed(arts[..i], receiveEnabled)
    {
      assert arts[..i+1][..i] == arts[..i];
      if arts[i].sourceOwned || (arts[i].received && receiveEnabled) {
        cands := cands + [Candidate(arts[i].updatedAt, arts[i].log)];
      }
    }
    assert arts[..|arts|] == arts;
  }

  method SortByUpdate(cands: seq<Candidate>) returns (sorted: seq<Candidate>)
    ensures Descending(sorted, UpdatedAt) && multiset(sorted) == multiset(cands)
  {
    sorted := [];
    for i := 0 to |cands|
      invariant Descending(sorted, UpdatedAt) && multiset(sorted) == multiset(cands[..i])
    {
      assert cands[..i+1] == cands[..i] + [cands[i]];
      sorted := InsertByKey(cands[i], sorted, UpdatedAt);
    }
    assert cands[..|cands|] == cands;
  }

  /** One request.  The feed is the top of exactly the logs it read, largest update first; with update
      times that bound the logs it is the top of every attributed log. */
  method RecentAgentEvents(arts: seq<AgentArtifact>, receiveEnabled: bool, limit: int)
    returns (out: seq<AgentEvent>, ghost cands: seq<Candidate>)
    ensures Descending(cands, UpdatedAt) && multiset(cands) == multiset(Attributed(arts, receiveEnabled))
    ensures limit <= 0 ==> out == []
    ensures limit > 0 ==> IsTop(out, Merged(cands[..ReadUpTo(cands, 0, limit)]), limit)
    ensures limit > 0 && (forall c, e :: c in Attributed(arts, receiveEnabled) && e in c.log ==> e.at <= c.updatedAt) ==>
              IsTop(out, Merged(Attributed(arts, receiveEnabled)), limit)
    ensures forall e :: e in out ==> ShownFrom(arts, receiveEnabled, e)
  {
    hide IsTop, Merged, ReadUpTo, Descending;
    var gathered := GatherCandidates(arts, receiveEnabled);
    var sorted := SortByUpdate(gathered);
    cands := sorted;
    out := NewestEvents(sorted, limit);
    if limit > 0 {
      TopIsPart(out, Merged(cands[..ReadUpTo(cands, 0, limit)]), limit);
      forall e | e in out ensures ShownFrom(arts, receiveEnabled, e) {
        ShownBelongs(arts, receiveEnabled, cands, ReadUpTo(cands, 0, limit), out, e);
      }
    }
    if limit > 0 && forall c, e :: c in gathered && e in c.log ==> e.at <= c.updatedAt {
      assert forall c :: c in sorted ==> c in multiset(sorted);
      AgentFeedIsTheTop(sorted, limit, out);
      MergedPermuted(sorted, gathered);
      TopPermuted(out, Merged(sorted), Merged(gathered), limit);
    }
  }

  lemma TopIsPart(out: seq<AgentEvent>, all: seq<AgentEvent>, limit: int)
    requires IsTop(out, all, limit)
    ensures multiset(out) <= multiset(all)
  {
  }

  lemma TopPermuted(out: seq<AgentEvent>, a: seq<AgentEvent>, b: seq<AgentEvent>, limit: int)
    requires multiset(a) == multiset(b) && IsTop(out, a, limit)
    ensures IsTop(out, b, limit)
  {
    SameMultisetSameLength(a, b);
  }

  lemma {:induction false} MergedPermuted(a: seq<Candidate>, b: seq<Candidate>)
    requires multiset(a) == multiset(b)
    ensures multiset(Merged(a)) == multiset(Merged(b))
    decreases |a|
  {
    SameMultisetSameLength(a, b);
    if a != [] {
      var c := a[|a|-1];
      assert c in multiset(b);
      var j :| 0 <= j < |b| && b[j] == c;
      var rest := b[..j] + b[j+1..];
      assert b == b[..j] + ([c] + b[j+1..]);
      FrontCount(a);
      MergedPermuted(a[..|a|-1], rest);
      MergedSplit(b[..j], [c] + b[j+1..]);
      MergedSplit([c], b[j+1..]);
      MergedSplit(b[..j], b[j+1..]);
      assert Merged([c]) == Merged([c][..0]) + c.log;
    }
  }

  /** Phase 2, for any candidates in any order. */
  method NewestEvents(cands: seq<Candidate>, limit: int) returns (out: seq<AgentEvent>)
    ensures limit <= 0 ==> out == []
    ensures limit > 0 ==> IsTop(out, Merged(cands[..ReadUpTo(cands, 0, limit)]), limit)
  {
    if limit <= 0 {
      return [];
    }
    hide Kept, Full, IsTop, Merged, ReadUpTo;
    var evs: seq<AgentEvent> := [];
    var k := 0;
    NoneKept(cands, limit);
    while k < |cands|
      invariant 0 <= k <= |cands|
      invariant Kept(evs, Merged(cands[..k]), limit)
      invariant ReadUpTo(cands, k, limit) == ReadUpTo(cands, 0, limit)
    {
      if |evs| >= limit {
        ghost var all := evs;
        evs := SortByTime(evs);
        SameMultisetSameLength(all, evs);
        KeptSorted(all, evs, Merged(cands[..k]), limit);
        evs := evs[..limit];
        StopRule(evs, cands, k, limit);
        if !(cands[k].updatedAt > evs[limit-1].at) {
          break;
        }
      } else {
        NotFull(evs, cands, k, limit);
      }
      KeptMore(evs, cands, k, limit);
      evs := evs + cands[k].log;
      k := k + 1;
    }
    if k == |cands| {
      AllRead(cands, k, limit);
    }
    ghost var all := evs;
    evs := SortByTime(evs);
    SameMultisetSameLength(all, evs);
    KeptIsTop(all, evs, Merged(cands[..k]), limit);
    if |evs| > limit {
      evs := evs[..limit];
    }
    out := evs;
  }

  // ---------------------------------------------------------------- the steps of the loop

  lemma NoneKept(cands: seq<Candidate>, limit: int)
    ensures Kept([], Merged(cands[..0]), limit)
  {
  }

  lemma AllRead(cands: seq<Candidate>, k: nat, limit: int)
    requires k == |cands|
    ensures ReadUpTo(cands, k, limit) == k
  {
  }

  /** Sorting and cutting to `limit` loses nothing newer than what stays. */
  lemma KeptSorted(evs: seq<AgentEvent>, sorted: seq<AgentEvent>, all: seq<AgentEvent>, limit: int)
    requires Kept(evs, all, limit) && 0 < limit <= |sorted|
    requires Descending(sorted, At) && multiset(sorted) == multiset(evs)
    ensures Descending(sorted[..limit], At)
    ensures Kept(sorted[..limit], all, limit)
  {
    forall e | multiset(sorted[..limit])[e] < multiset(all)[e] ensures CountAbove(sorted[..limit], At, e.at - 1) >= limit {
      KeptSortedAt(evs, sorted, all, limit, e);
    }
    SplitCount(sorted, limit);
  }

  lemma KeptSortedAt(evs: seq<AgentEvent>, sorted: seq<AgentEvent>, all: seq<AgentEvent>, limit: int, e: AgentEvent)
    requires Kept(evs, all, limit) && 0 < limit <= |sorted|
    requires Descending(sorted, At) && multiset(sorted) == multiset(evs)
    requires multiset(sorted[..limit])[e] < multiset(all)[e]
    ensures CountAbove(sorted[..limit], At, e.at - 1) >= limit
  {
    hide Descending, CountAbove;
    if multiset(evs)[e] < multiset(all)[e] {
      CountAbovePermutation(evs, sorted, At, e.at - 1);
    } else {
      CutEvent(sorted, limit, e);
    }
    PrefixCount(sorted, limit, e.at - 1);
  }

  lemma CutEvent(sorted: seq<AgentEvent>, limit: int, e: AgentEvent)
    requires Descending(sorted, At) && 0 < limit <= |sorted|
    requires multiset(sorted[..limit])[e] < multiset(sorted)[e]
    ensures CountAbove(sorted, At, e.at - 1) >= limit
  {
    SplitCount(sorted, limit);
    assert e in sorted[limit..];
    var j :| limit <= j < |sorted| && sorted[j] == e;
    assert At(sorted[limit-1]) >= At(sorted[j]);
    CountAboveDescending(sorted, At, e.at - 1, limit);
  }

  lemma PrefixCount(sorted: seq<AgentEvent>, limit: int, x: int)
    requires Descending(sorted, At) && 0 < limit <= |sorted|
    requires CountAbove(sorted, At, x) >= limit
    ensures CountAbove(sorted[..limit], At, x) >= limit
  {
    hide CountAbove;
    CountAboveDescending(sorted, At, x, limit);
    CountAboveDescending(sorted[..limit], At, x, limit);
  }

  lemma MergedNext(cands: seq<Candidate>, k: nat)
    requires k < |cands|
    ensures Merged(cands[..k+1]) == Merged(cands[..k]) + cands[k].log
  {
    assert cands[..k+1][..k] == cands[..k];
  }

  lemma KeptMore(evs: seq<AgentEvent>, cands: seq<Candidate>, k: nat, limit: int)
    requires k < |cands| && Kept(evs, Merged(cands[..k]), limit)
    ensures Kept(evs + cands[k].log, Merged(cands[..k+1]), limit)
  {
    hide CountAbove, Merged;
    var log, all := cands[k].log, Merged(cands[..k]);
    MergedNext(cands, k);
    assert multiset(evs + log) == multiset(evs) + multiset(log) && multiset(all + log) == multiset(all) + multiset(log);
    forall e | multiset(evs + log)[e] < multiset(all + log)[e] ensures CountAbove(evs + log, At, e.at - 1) >= limit {
      CountAboveConcat(evs, log, At, e.at - 1);
    }
  }

  /** What the kept events count above a stamp agrees, up to `limit`, with what all events count. */
  lemma KeptCounts(evs: seq<AgentEvent>, all: seq<AgentEvent>, limit: int, x: int)
    requires Kept(evs, all, limit)
    ensures CountAbove(evs, At, x) >= limit <==> CountAbove(all, At, x) >= limit
    ensures CountAbove(evs, At, x) < limit ==> CountAbove(evs, At, x) == CountAbove(all, At, x)
  {
    CountSub(evs, all, x);
    if CountAbove(evs, At, x) < limit {
      forall e: AgentEvent | e.at > x ensures multiset(evs)[e] == multiset(all)[e] {
        if multiset(evs)[e] < multiset(all)[e] {
          CountAboveMonotone(evs, At, x, e.at - 1);
        }
      }
      CountSame(evs, all, x);
    }
  }

  lemma {:induction false} CountSub(a: seq<AgentEvent>, b: seq<AgentEvent>, x: int)
    requires multiset(a) <= multiset(b)
    ensures CountAbove(a, At, x) <= CountAbove(b, At, x)
    decreases |b|
  {
    if a != [] {
      var e := a[|a|-1];
      assert e in multiset(b);
      var b' := TakeOut(b, e, At, x);
      FrontCount(a);
      CountSub(a[..|a|-1], b', x);
    }
  }

  lemma {:induction false} CountSame(a: seq<AgentEvent>, b: seq<AgentEvent>, x: int)
    requires multiset(a) <= multiset(b)
    requires forall e: AgentEvent :: e.at > x ==> multiset(a)[e] == multiset(b)[e]
    ensures CountAbove(a, At, x) == CountAbove(b, At, x)
    decreases |b|
  {
    if a == [] {
      forall i | 0 <= i < |b| ensures At(b[i]) <= x {
        assert b[i] in multiset(b);
      }
      CountAboveNone(b, At, x);
    } else {
      hide CountAbove;
      var front, e := a[..|a|-1], a[|a|-1];
      assert e in multiset(b);
      var b' := TakeOut(b, e, At, x);
      FrontCount(a);
      CountAboveLast(a, At, x);
      assert multiset(front) == multiset(a) - multiset{e};
      CountSame(front, b', x);
    }
  }

  lemma StopRule(evs: seq<AgentEvent>, cands: seq<Candidate>, k: nat, limit: int)
    requires k < |cands| && limit > 0 && |evs| == limit && Descending(evs, At)
    requires Kept(evs, Merged(cands[..k]), limit)
    ensures !(cands[k].updatedAt > evs[limit-1].at) ==> ReadUpTo(cands, k, limit) == k
    ensures cands[k].updatedAt > evs[limit-1].at ==> ReadUpTo(cands, k, limit) == ReadUpTo(cands, k + 1, limit)
  {
    hide Kept, Merged, Descending, CountAbove;
    KeptCounts(evs, Merged(cands[..k]), limit, cands[k].updatedAt - 1);
    CountAboveDescending(evs, At, cands[k].updatedAt - 1, limit);
  }

  lemma NotFull(evs: seq<AgentEvent>, cands: seq<Candidate>, k: nat, limit: int)
    requires k < |cands| && |evs| < limit
    requires Kept(evs, Merged(cands[..k]), limit)
    ensures ReadUpTo(cands, k, limit) == ReadUpTo(cands, k + 1, limit)
  {
    KeptCounts(evs, Merged(cands[..k]), limit, cands[k].updatedAt - 1);
  }

  lemma KeptIsTop(evs: seq<AgentEvent>, sorted: seq<AgentEvent>, all: seq<AgentEvent>, limit: int)
    requires limit > 0 && Kept(evs, all, limit) && |sorted| == |evs|
    requires Descending(sorted, At) && multiset(sorted) == multiset(evs)
    ensures IsTop(if |sorted| > limit then sorted[..limit] else sorted, all, limit)
  {
    if |sorted| >= limit {
      KeptSorted(evs, sorted, all, limit);
      FullIsTop(sorted[..limit], all, limit);
      assert |sorted| == limit ==> sorted[..limit] == sorted;
    } else {
      NothingMissed(multiset(sorted), multiset(all));
      SameMultisetSameLength(sorted, all);
    }
  }

  lemma FullIsTop(out: seq<AgentEvent>, all: seq<AgentEvent>, limit: int)
    requires |out| == limit > 0 && Descending(out, At) && Kept(out, all, limit)
    ensures IsTop(out, all, limit)
  {
    forall e, o | multiset(out)[e] < multiset(all)[e] && o in out ensures o.at >= e.at {
      CountAboveDescending(out, At, e.at - 1, limit);
      var i :| 0 <= i < limit && out[i] == o;
      assert At(out[i]) >= At(out[limit-1]);
    }
    SubMultisetLength(out, all);
  }

  // ---------------------------------------------------------------- what the feed shows

  /** Every log is bounded by its artifact's update time, newest update first. */
  ghost predicate Bounded(cands: seq<Candidate>) {
    && Descending(cands, UpdatedAt)
    && forall c, e :: c in cands && e in c.log ==> e.at <= c.updatedAt
  }

  lemma {:induction false} MergedBounded(cands: seq<Candidate>, bound: int, e: AgentEvent)
    requires forall c, f :: c in cands && f in c.log ==> f.at <= bound
    requires e in Merged(cands)
    ensures e.at <= bound
  {
    if e !in cands[|cands|-1].log {
      MergedBounded(cands[..|cands|-1], bound, e);
    }
  }

  lemma {:induction false} MergedSplit(a: seq<Candidate>, b: seq<Candidate>)
    ensures Merged(a + b) == Merged(a) + Merged(b)
  {
    if b == [] {
      assert a + b == a;
    } else {
      assert (a + b)[..|a + b|-1] == a + b[..|b|-1];
      MergedSplit(a, b[..|b|-1]);
    }
  }

  /** When the logs read already fill the feed, it is the top of everything exactly when no unread
      event is later than the oldest event shown. */
  lemma EarlyStopIff(out: seq<AgentEvent>, read: seq<AgentEvent>, unread: seq<AgentEvent>, limit: int)
    requires limit > 0 && |read| >= limit && IsTop(out, read, limit)
    ensures IsTop(out, read + unread, limit) <==> forall e :: e in unread ==> e.at <= out[limit-1].at
  {
    assert multiset(read + unread) == multiset(read) + multiset(unread);
    if forall e :: e in unread ==> e.at <= out[limit-1].at {
      forall e, o | multiset(out)[e] < multiset(read + unread)[e] && o in out ensures o.at >= e.at {
        var i :| 0 <= i < |out| && out[i] == o;
        assert i < limit - 1 ==> At(out[i]) >= At(out[limit-1]);
        assert e in unread || multiset(out)[e] < multiset(read)[e];
      }
    } else {
      var e :| e in unread && e.at > out[limit-1].at;
      assert multiset(unread)[e] > 0;
      assert out[limit-1] in out;
      assert multiset(out)[e] < multiset(read + unread)[e];
    }
  }

  lemma UnreadBounded(cands: seq<Candidate>, k: nat, e: AgentEvent)
    requires Bounded(cands) && k < |cands| && e in Merged(cands[k..])
    ensures e.at <= cands[k].updatedAt
  {
    forall c, f | c in cands[k..] && f in c.log ensures f.at <= cands[k].updatedAt {
      var i :| k <= i < |cands| && cands[i] == c;
      assert k < i ==> UpdatedAt(cands[k]) >= UpdatedAt(cands[i]);
    }
    MergedBounded(cands[k..], cands[k].updatedAt, e);
  }

  /** With bounds in force the early stop loses nothing: the feed is the top of every attributed log. */
  lemma AgentFeedIsTheTop(cands: seq<Candidate>, limit: int, out: seq<AgentEvent>)
    requires limit > 0 && Bounded(cands)
    requires IsTop(out, Merged(cands[..ReadUpTo(cands, 0, limit)]), limit)
    ensures IsTop(out, Merged(cands), limit)
  {
    hide IsTop, Bounded;
    var k := ReadUpTo(cands, 0, limit);
    if k < |cands| {
      assert Full(cands, k, limit);
      StopIsSafe(cands, k, limit, out);
    } else {
      assert cands[..k] == cands;
    }
  }

  lemma StopIsSafe(cands: seq<Candidate>, k: nat, limit: int, out: seq<AgentEvent>)
    requires limit > 0 && Bounded(cands) && k < |cands|
    requires CountAbove(Merged(cands[..k]), At, cands[k].updatedAt - 1) >= limit
    requires IsTop(out, Merged(cands[..k]), limit)
    ensures IsTop(out, Merged(cands), limit)
  {
    hide Bounded, IsTop, Merged, CountAbove;
    var read, unread := Merged(cands[..k]), Merged(cands[k..]);
    TopReaches(out, read, limit, cands[k].updatedAt);
    forall e | e in unread ensures e.at <= out[limit-1].at {
      UnreadBounded(cands, k, e);
    }
    EarlyStopIff(out, read, unread, limit);
    MergedSplit(cands[..k], cands[k..]);
    assert cands == cands[..k] + cands[k..];
  }

  lemma TopKept(out: seq<AgentEvent>, all: seq<AgentEvent>, limit: int)
    requires limit > 0 && IsTop(out, all, limit)
    ensures Kept(out, all, limit)
  {
    forall e | multiset(out)[e] < multiset(all)[e] ensures CountAbove(out, At, e.at - 1) >= limit {
      if |all| < limit {
        SubMultisetEqual(out, all);
      } else {
        CountAboveAll(out, At, e.at - 1);
      }
    }
  }

  lemma TopReaches(out: seq<AgentEvent>, all: seq<AgentEvent>, limit: int, x: int)
    requires limit > 0 && IsTop(out, all, limit) && CountAbove(all, At, x - 1) >= limit
    ensures |all| >= limit && |out| == limit && out[limit-1].at >= x
  {
    TopKept(out, all, limit);
    KeptCounts(out, all, limit, x - 1);
    CountAboveDescending(out, At, x - 1, limit);
  }

  /** The timestamps shown do not depend on how ties were cut: any two tops agree stamp by stamp. */
  lemma TopStampsUnique(a: seq<AgentEvent>, b: seq<AgentEvent>, all: seq<AgentEvent>, limit: int)
    requires limit > 0 && IsTop(a, all, limit) && IsTop(b, all, limit)
    ensures |a| == |b| && forall i :: 0 <= i < |a| ==> a[i].at == b[i].at
  {
    TopKept(a, all, limit);
    TopKept(b, all, limit);
    forall x: int ensures CountAbove(a, At, x) == CountAbove(b, At, x) {
      KeptCounts(a, all, limit, x);
      KeptCounts(b, all, limit, x);
    }
    EqualCountsEqualKeys(a, b, At);
    forall i | 0 <= i < |a| ensures a[i].at == b[i].at {
      assert At(a[i]) == At(b[i]);
    }
  }

  lemma MergedPair(a: Candidate, b: Candidate)
    ensures Merged([a]) == a.log && Merged([a, b]) == a.log + b.log
  {
    assert [a][..0] == [] && [a, b][..1] == [a];
    assert Merged([a]) == Merged([]) + a.log;
  }

  /** Side branches do not move an artifact's update time, so its bound can be false.  The first
      event alone fills a feed of one, reading stops, and the later event behind it is never shown. */
  lemma SideBranchEventMissed(first: Candidate, side: Candidate, shown: AgentEvent, missed: AgentEvent)
    requires first.log == [shown] && missed in side.log
    requires shown.at <= first.updatedAt
    requires side.updatedAt <= shown.at < missed.at
    ensures ReadUpTo([first, side], 0, 1) == 1
    ensures forall out :: IsTop(out, Merged([first, side][..1]), 1) ==> !IsTop(out, Merged([first, side]), 1)
  {
    var cands := [first, side];
    MergedPair(first, side);
    assert cands[..0] == [] && cands[..1] == [first];
    ReadsOne(cands, shown);
    forall out | IsTop(out, first.log, 1) ensures !IsTop(out, first.log + side.log, 1) {
      EarlyStopIff(out, first.log, side.log, 1);
      assert out[0] in multiset(first.log);
    }
  }

  lemma ReadsOne(cands: seq<Candidate>, shown: AgentEvent)
    requires |cands| == 2 && Merged(cands[..1]) == [shown] && cands[1].updatedAt <= shown.at
    ensures ReadUpTo(cands, 0, 1) == 1
  {
    assert cands[..0] == [];
    assert !Full(cands, 0, 1);
    CountAboveAll([shown], At, cands[1].updatedAt - 1);
    assert Full(cands, 1, 1);
    assert ReadUpTo(cands, 1, 1) == 1;
  }
}
