/** Exactly when the agent feed shows the newest events of every attributed log. */
module AgentFeedExact {
  import opened FeedOrder
  import opened AgentFeed

  /** For one limit: the feed is right exactly when every event it did not read has `limit` events at
      least as new in the logs it did. */
  lemma FeedIsTopIff(cands: seq<Candidate>, limit: int, out: seq<AgentEvent>)
    requires limit > 0
    requires IsTop(out, Merged(cands[..ReadUpTo(cands, 0, limit)]), limit)
    ensures var k := ReadUpTo(cands, 0, limit);
      IsTop(out, Merged(cands), limit)
      <==> forall e :: e in Merged(cands[k..]) ==> CountAbove(Merged(cands[..k]), At, e.at - 1) >= limit
  {
    hide IsTop, CountAbove;
    var k := ReadUpTo(cands, 0, limit);
    var read, unread := Merged(cands[..k]), Merged(cands[k..]);
    MergedSplit(cands[..k], cands[k..]);
    assert cands == cands[..k] + cands[k..];
    if k == |cands| {
      assert unread == [];
      assert cands[..k] == cands;
    } else {
      TopReaches(out, read, limit, cands[k].updatedAt);
      TopOrder(out, read, limit);
      TopKept(out, read, limit);
      EarlyStopIff(out, read, unread, limit);
      forall e | e in unread ensures e.at <= out[limit-1].at <==> CountAbove(read, At, e.at - 1) >= limit {
        KeptCounts(out, read, limit, e.at - 1);
        CountAboveDescending(out, At, e.at - 1, limit);
      }
    }
  }

  lemma TopOrder(out: seq<AgentEvent>, all: seq<AgentEvent>, limit: int)
    requires IsTop(out, all, limit)
    ensures Descending(out, At)
  {
  }

  /** Whatever the feed answers for `limit`, it is the top of all logs. */
  ghost predicate FeedIsRight(cands: seq<Candidate>, limit: int) {
    forall out :: IsTop(out, Merged(cands[..ReadUpTo(cands, 0, limit)]), limit) ==> IsTop(out, Merged(cands), limit)
  }

  /** From candidate `k` on there is an event later than one before it that `k`'s update time does not beat. */
  ghost predicate Overtaken(cands: seq<Candidate>, k: nat, f: AgentEvent, e: AgentEvent) {
    k < |cands| && f in Merged(cands[..k]) && e in Merged(cands[k..]) && cands[k].updatedAt <= f.at < e.at
  }

  lemma {:induction false} SortedExists(evs: seq<AgentEvent>) returns (sorted: seq<AgentEvent>)
    ensures Descending(sorted, At) && multiset(sorted) == multiset(evs)
  {
    sorted := [];
    if evs != [] {
      FrontCount(evs);
      var front := SortedExists(evs[..|evs|-1]);
      sorted := InsertByKey(evs[|evs|-1], front, At);
    }
  }

  lemma TopExists(all: seq<AgentEvent>, limit: int) returns (out: seq<AgentEvent>)
    requires limit > 0
    ensures IsTop(out, all, limit)
  {
    var sorted := SortedExists(all);
    SameMultisetSameLength(sorted, all);
    KeptIsTop(all, sorted, all, limit);
    out := if |sorted| > limit then sorted[..limit] else sorted;
  }

  /** Fewer events above a later stamp: one lies between the two. */
  lemma {:induction false} BetweenStamps(s: seq<AgentEvent>, x: int, y: int) returns (f: AgentEvent)
    requires CountAbove(s, At, x) > CountAbove(s, At, y)
    ensures f in s && x < f.at <= y
  {
    var last := s[|s|-1];
    if x < last.at <= y {
      f := last;
    } else {
      f := BetweenStamps(s[..|s|-1], x, y);
    }
  }

  lemma OneMoreAbove(s: seq<AgentEvent>, f: AgentEvent, x: int)
    requires f in s && f.at <= x
    ensures CountAbove(s, At, f.at - 1) > CountAbove(s, At, x)
  {
    var i :| 0 <= i < |s| && s[i] == f;
    assert s == s[..i] + [f] + s[i+1..];
    CountAboveConcat(s[..i] + [f], s[i+1..], At, x);
    CountAboveConcat(s[..i], [f], At, x);
    CountAboveConcat(s[..i] + [f], s[i+1..], At, f.at - 1);
    CountAboveConcat(s[..i], [f], At, f.at - 1);
    CountAboveMonotone(s[..i], At, f.at - 1, x);
    CountAboveMonotone(s[i+1..], At, f.at - 1, x);
    assert CountAbove([f], At, x) == CountAbove([], At, x) && CountAbove([f], At, f.at - 1) == CountAbove([], At, x) + 1;
  }

  /** Reading stops at the first candidate that cannot win, so no later than any such one. */
  lemma {:induction false} StopsBy(cands: seq<Candidate>, from: nat, k: nat, limit: int)
    requires from <= k < |cands| && Full(cands, k, limit)
    ensures ReadUpTo(cands, from, limit) <= k
    decreases k - from
  {
    if from < k && !Full(cands, from, limit) {
      StopsBy(cands, from + 1, k, limit);
    }
  }

  /** An overtaken candidate spoils the feed for the limit that its rival just fills. */
  lemma OvertakenSpoils(cands: seq<Candidate>, k: nat, f: AgentEvent, e: AgentEvent)
    requires Overtaken(cands, k, f, e)
    ensures exists limit :: limit > 0 && !FeedIsRight(cands, limit)
  {
    hide IsTop, CountAbove, Merged;
    var limit := CountAbove(Merged(cands[..k]), At, f.at - 1);
    OneMoreAbove(Merged(cands[..k]), f, e.at - 1);
    CountAboveMonotone(Merged(cands[..k]), At, cands[k].updatedAt - 1, f.at - 1);
    StopsBy(cands, 0, k, limit);
    var stop := ReadUpTo(cands, 0, limit);
    assert cands[..k] == cands[..stop] + cands[stop..k] && cands[stop..] == cands[stop..k] + cands[k..];
    MergedSplit(cands[..stop], cands[stop..k]);
    MergedSplit(cands[stop..k], cands[k..]);
    CountAboveConcat(Merged(cands[..stop]), Merged(cands[stop..k]), At, e.at - 1);
    var out := TopExists(Merged(cands[..stop]), limit);
    FeedIsTopIff(cands, limit, out);
    assert e in Merged(cands[stop..]);
    assert !FeedIsRight(cands, limit);
  }

  /** An event missed at some limit is later than one that already beat its candidate's update time. */
  lemma MissedIsOvertaken(cands: seq<Candidate>, limit: int, e: AgentEvent)
    requires limit > 0
    requires var k := ReadUpTo(cands, 0, limit);
      e in Merged(cands[k..]) && CountAbove(Merged(cands[..k]), At, e.at - 1) < limit
    ensures exists k: nat, f :: Overtaken(cands, k, f, e)
  {
    var k := ReadUpTo(cands, 0, limit);
    var f := BetweenStamps(Merged(cands[..k]), cands[k].updatedAt - 1, e.at - 1);
    assert Overtaken(cands, k, f, e);
  }

  /** The feed is right for every limit exactly when no candidate is overtaken: nothing from it on is
      later than an event before it that its update time does not beat. */
  lemma FeedRightForEveryLimitIff(cands: seq<Candidate>)
    ensures (forall limit :: limit > 0 ==> FeedIsRight(cands, limit)) <==> !exists k: nat, f, e :: Overtaken(cands, k, f, e)
  {
    hide IsTop, CountAbove, Merged, Overtaken;
    if k: nat, f, e :| Overtaken(cands, k, f, e) {
      OvertakenSpoils(cands, k, f, e);
    } else {
      forall limit, out | limit > 0 && IsTop(out, Merged(cands[..ReadUpTo(cands, 0, limit)]), limit)
        ensures IsTop(out, Merged(cands), limit)
      {
        var k := ReadUpTo(cands, 0, limit);
        FeedIsTopIff(cands, limit, out);
        if e :| e in Merged(cands[k..]) && CountAbove(Merged(cands[..k]), At, e.at - 1) < limit {
          MissedIsOvertaken(cands, limit, e);
        }
      }
    }
  }
}
