/** The newest-first event feed: a bounded merge over artifact logs that stops reading as soon as no
    unread log can still contribute to the page. */
module EventFeed {
  import opened FeedOrder
  import opened EventReader

  /** A wire record.  `seqNo` is the millisecond timestamp the cursor pages over. */
  datatype EventRec = EventRec(seqNo: int, eventId: int, artifact: int)

  /** Store metadata of one artifact, with its event log. */
  datatype Artifact = Artifact(id: int, updatedAt: int, logModTime: int, sideBranch: bool, log: seq<Header>)

  /** An artifact with its bound on the newest event its log can hold. */
  datatype ArtRef = ArtRef(artifact: int, upperSeq: int, log: seq<Header>)

  datatype Page = Page(events: seq<EventRec>, nextBefore: int)

  function SeqNo(r: EventRec): int { r.seqNo }

  function UpperSeq(r: ArtRef): int { r.upperSeq }

  function RecordFor(artifact: int, h: Header): EventRec { EventRec(h.millis, h.eventId, artifact) }

  // ---------------------------------------------------------------- the whole feed

  function Records(artifact: int, headers: seq<Header>): (rs: seq<EventRec>)
    ensures |rs| == |headers|
    ensures forall i :: 0 <= i < |rs| ==> rs[i] == RecordFor(artifact, headers[i])
  {
    seq(|headers|, i requires 0 <= i < |headers| => RecordFor(artifact, headers[i]))
  }

  /** Every record the cursor admits from one log. */
  function LogRecords(r: ArtRef, before: int): seq<EventRec> {
    Records(r.artifact, Admitted(r.log, before))
  }

  /** Every record the cursor admits, log after log: what a reader of the whole store would collect. */
  function AllRecords(refs: seq<ArtRef>, before: int): seq<EventRec> {
    if refs == [] then [] else AllRecords(refs[..|refs|-1], before) + LogRecords(refs[|refs|-1], before)
  }

  // ---------------------------------------------------------------- ordering

  /** Newest first, ties broken by event id. */
  predicate Ahead(a: EventRec, b: EventRec) {
    a.seqNo > b.seqNo || (a.seqNo == b.seqNo && a.eventId >= b.eventId)
  }

  predicate Sorted(s: seq<EventRec>) {
    forall i, j :: 0 <= i < j < |s| ==> Ahead(s[i], s[j])
  }

  function InsertRec(r: EventRec, s: seq<EventRec>): (t: seq<EventRec>)
    requires Sorted(s)
    ensures Sorted(t) && multiset(t) == multiset(s) + multiset{r}
  {
    if s == [] || Ahead(r, s[0]) then [r] + s
    else
      var rest := InsertRec(r, s[1..]);
      SortedCons(s, r, rest);
      [s[0]] + rest
  }

  lemma SortedCons(s: seq<EventRec>, r: EventRec, rest: seq<EventRec>)
    requires Sorted(s) && s != [] && Ahead(s[0], r)
    requires Sorted(rest) && multiset(rest) == multiset(s[1..]) + multiset{r}
    ensures Sorted([s[0]] + rest)
    ensures multiset([s[0]] + rest) == multiset(s) + multiset{r}
  {
    assert s == [s[0]] + s[1..];
    forall i | 0 <= i < |rest| ensures Ahead(s[0], rest[i]) {
      assert rest[i] in multiset(rest);
      assert rest[i] == r || rest[i] in s[1..];
    }
  }

  /** The library sort: any arrangement of the records in feed order. */
  method SortEventSeqRecs(recs: seq<EventRec>) returns (sorted: seq<EventRec>)
    ensures Sorted(sorted) && multiset(sorted) == multiset(recs)
  {
    sorted := [];
    var i := 0;
    while i < |recs|
      invariant 0 <= i <= |recs|
      invariant Sorted(sorted) && multiset(sorted) == multiset(recs[..i])
    {
      assert recs[..i+1] == recs[..i] + [recs[i]];
      sorted := InsertRec(recs[i], sorted);
      i := i + 1;
    }
    assert recs[..i] == recs;
  }

  // ---------------------------------------------------------------- the merge

  /** `recs` holds records of the processed logs; whatever it lacks has `target` newer records in it. */
  ghost predicate Window(recs: seq<EventRec>, all: seq<EventRec>, target: int) {
    && multiset(recs) <= multiset(all)
    && forall e :: multiset(recs)[e] < multiset(all)[e] ==> CountAbove(recs, SeqNo, e.seqNo) >= target
  }

  /** The page a cursor selects: the admitted records at or above its last Seq, all of them, in feed
      order, and at least `limit` of them if there are that many. */
  ghost predicate IsPage(refs: seq<ArtRef>, before: int, limit: int, page: Page) {
    && Drawn(refs, before, limit, page)
    && (page.events != [] ==> TakesFrom(page.events, AllRecords(refs, before), page.nextBefore))
  }

  /** What any page is, be the logs in order or not: admitted records in feed order, at least `limit` of
      them if there are that many, and the cursor of the last. */
  ghost predicate Drawn(refs: seq<ArtRef>, before: int, limit: int, page: Page) {
    DrawnFrom(AllRecords(refs, before), before, limit, page)
  }

  predicate DrawnFrom(all: seq<EventRec>, before: int, limit: int, page: Page) {
    && Sorted(page.events) && multiset(page.events) <= multiset(all)
    && |page.events| >= (if |all| < limit then |all| else limit)
    && page.nextBefore == if page.events == [] then before else page.events[|page.events|-1].seqNo
  }

  /** No two records share a millisecond. */
  ghost predicate DistinctSeqs(s: seq<EventRec>) {
    && (forall e: EventRec :: multiset(s)[e] <= 1)
    && (forall a, b :: a in s && b in s && a.seqNo == b.seqNo ==> a == b)
  }

  /** What reading each log once under `limit` gives. */
  function BoundedReads(refs: seq<ArtRef>, before: int, limit: int): seq<EventRec> {
    if refs == [] then []
    else BoundedReads(refs[..|refs|-1], before, limit) + LogRead(refs[|refs|-1], before, limit)
  }

  function LogRead(r: ArtRef, before: int, limit: int): seq<EventRec> {
    Records(r.artifact, RecentHeaders(r.log, before, limit))
  }

  /** What the merge holds after the first `k` logs, be they in order or not: only their records, all of
      them unless the window is full, and without ties only what reads under `limit` give. */
  ghost predicate HeldAt(refs: seq<ArtRef>, k: nat, before: int, limit: int, recs: seq<EventRec>, target: int)
    requires k <= |refs|
  {
    var all := AllRecords(refs[..k], before);
    && multiset(recs) <= multiset(all) && (|recs| < target ==> multiset(recs) == multiset(all))
    && (DistinctSeqs(AllRecords(refs, before)) ==>
          target == limit && multiset(recs) <= multiset(BoundedReads(refs[..k], before, limit)))
  }

  /** `events` is, record for record, the part of `all` at or above `bound`. */
  ghost predicate TakesFrom(events: seq<EventRec>, all: seq<EventRec>, bound: int) {
    forall e: EventRec :: multiset(events)[e] == if e.seqNo >= bound then multiset(all)[e] else 0
  }

  /** The merge invariant after the first `k` logs (no claim is made for disordered logs). */
  ghost predicate WindowAt(refs: seq<ArtRef>, k: nat, before: int, recs: seq<EventRec>, target: int)
    requires k <= |refs|
  {
    Readable(refs) ==> Window(recs, AllRecords(refs[..k], before), target)
  }

  ghost predicate Readable(refs: seq<ArtRef>) {
    && Descending(refs, UpperSeq)
    && (forall r :: r in refs ==> Chronological(r.log))
    && (forall r, h :: r in refs && h in r.log ==> h.millis <= r.upperSeq)
  }

  /** `page` is the first `to` records: `limit` of them, extended over the last record's millisecond. */
  ghost predicate IsCut(recs: seq<EventRec>, before: int, limit: int, to: nat, page: Page)
    requires to <= |recs|
  {
    && page.events == recs[..to]
    && to >= (if |recs| < limit then |recs| else limit)
    && (0 < to < |recs| ==> recs[to].seqNo != recs[to-1].seqNo)
    && (to > limit > 0 ==> recs[to-1].seqNo == recs[limit-1].seqNo)
    && page.nextBefore == if to > 0 then recs[to-1].seqNo else before
  }

  method EventPageFromRecs(recs: seq<EventRec>, before: int, limit: int) returns (page: Page)
    requires Sorted(recs) && limit >= 0
    ensures exists to: nat | to <= |recs| :: IsCut(recs, before, limit, to, page)
  {
    var to := limit;
    if to > |recs| {
      to := |recs|;
    }
    if to > 0 {
      while to < |recs| && recs[to].seqNo == recs[to-1].seqNo
        invariant 0 < to <= |recs|
        invariant to >= (if |recs| < limit then |recs| else limit)
        invariant to > limit > 0 ==> recs[to-1].seqNo == recs[limit-1].seqNo
      {
        to := to + 1;
      }
    }
    page := Page(recs[..to], if to > 0 then recs[to-1].seqNo else before);
    assert IsCut(recs, before, limit, to, page);
  }

  function Least(a: int, b: int): int { if a < b then a else b }

  /** The first `f` logs hold `limit` admitted records, and no fewer of them do. */
  predicate FillsAt(refs: seq<ArtRef>, before: int, limit: int, f: nat) {
    && 0 < f <= |refs| && |AllRecords(refs[..f], before)| >= limit && |AllRecords(refs[..f-1], before)| < limit
  }

  /** The page goes no deeper than it must: fewer than `limit` records of the first logs that hold `limit`
      lie above its last millisecond. */
  ghost predicate Tight(refs: seq<ArtRef>, before: int, limit: int, page: Page) {
    forall f: nat :: f <= |refs| && FillsAt(refs, before, limit, f) ==>
      CountAbove(AllRecords(refs[..f], before), SeqNo, page.nextBefore) < limit
  }

  /** Whatever has `limit` records of `all` above it has `target` of `recs` above it. */
  ghost predicate Covers(recs: seq<EventRec>, target: int, all: seq<EventRec>, limit: int) {
    forall x: int :: CountAbove(all, SeqNo, x) >= limit ==> CountAbove(recs, SeqNo, x) >= target
  }

  ghost predicate TightAt(refs: seq<ArtRef>, k: nat, before: int, limit: int, recs: seq<EventRec>, target: int)
    requires k <= |refs|
  {
    && (|AllRecords(refs[..k], before)| < limit ==> target == limit)
    && (Readable(refs) ==> forall f: nat :: f <= k && FillsAt(refs, before, limit, f) ==>
          Covers(recs, target, AllRecords(refs[..f], before), limit))
  }

  /** The merge reads any logs; the page is right whenever the logs and bounds are in order, and then it
      goes no deeper than the first logs that fill it.  Without ties the page has just `limit` records, or
      all there are, and no log is read beyond the page's own limit. */
  method MaterializePage(refs: seq<ArtRef>, before: int, limit: int) returns (page: Page)
    requires limit > 0
    ensures Drawn(refs, before, limit, page)
    ensures Readable(refs) ==> IsPage(refs, before, limit, page)
    ensures Readable(refs) ==> Tight(refs, before, limit, page)
    ensures DistinctSeqs(AllRecords(refs, before)) ==>
              && multiset(page.events) <= multiset(BoundedReads(refs, before, limit))
              && |page.events| == Least(limit, |AllRecords(refs, before)|)
  {
    hide WindowAt, IsPage, Readable, HeldAt, Drawn, DistinctSeqs, TightAt, Tight;
    var targetLimit := limit;
    var recs: seq<EventRec> := [];
    var k := 0;
    NothingRead(refs, before, limit);
    while k < |refs|
      invariant 0 <= k <= |refs|
      invariant targetLimit >= limit
      invariant WindowAt(refs, k, before, recs, targetLimit) && HeldAt(refs, k, before, limit, recs, targetLimit)
      invariant TightAt(refs, k, before, limit, recs, targetLimit)
    {
      if |recs| >= targetLimit {
        ghost var unsorted, oldLimit := recs, targetLimit;
        recs := SortEventSeqRecs(recs);
        SameMultisetSameLength(unsorted, recs);
        var boundary := recs[targetLimit-1].seqNo;
        while targetLimit < |recs| && recs[targetLimit].seqNo == boundary
          invariant oldLimit <= targetLimit <= |recs|
          invariant recs[targetLimit-1].seqNo == boundary
        {
          targetLimit := targetLimit + 1;
        }
        SortedAndGrown(refs, k, before, unsorted, recs, oldLimit, targetLimit);
        HeldAndGrown(refs, k, before, limit, unsorted, recs, oldLimit, targetLimit);
        TightAndGrown(refs, k, before, limit, unsorted, recs, oldLimit, targetLimit);
        if refs[k].upperSeq < boundary {
          StopEarly(refs, k, before, recs, targetLimit);
          TightAtStop(refs, k, before, limit, recs, targetLimit);
          HeldAtStop(refs, k, before, limit, recs, targetLimit);
          break;
        }
      }
      ghost var sofar := recs;
      recs := AppendRecent(refs, k, before, recs, targetLimit, limit);
      TightOne(refs, k, before, limit, sofar, recs, targetLimit);
      k := k + 1;
    }
    var sorted := SortEventSeqRecs(recs);
    page := EventPageFromRecs(sorted, before, targetLimit);
    DrawPage(refs, before, limit, recs, sorted, targetLimit, page);
    CutPage(refs, before, limit, recs, sorted, targetLimit, page);
    TightPage(refs, before, limit, recs, sorted, targetLimit, page);
  }

  /** Reads one log under the limit in force and appends its records, skipping any at or past the cursor. */
  method AppendRecent(refs: seq<ArtRef>, k: nat, before: int, recs: seq<EventRec>, limit: int, ghost first: int)
    returns (longer: seq<EventRec>)
    requires k < |refs| && limit >= 1 && WindowAt(refs, k, before, recs, limit) && HeldAt(refs, k, before, first, recs, limit)
    ensures WindowAt(refs, k + 1, before, longer, limit) && HeldAt(refs, k + 1, before, first, longer, limit)
    ensures recs <= longer
  {
    hide WindowAt, HeldAt;
    var r := refs[k];
    var evs := ReadRecentEventHeaders(r.log, before, limit);
    var got := [];
    var i := 0;
    while i < |evs|
      invariant 0 <= i <= |evs|
      invariant got == Records(r.artifact, evs[..i])
    {
      var rec := RecordFor(r.artifact, evs[i]);
      AdmittedBefore(r.log, before, evs[i]);
      if !(before > 0 && rec.seqNo >= before) {
        got := got + [rec];
      }
      i := i + 1;
    }
    assert evs[..i] == evs;
    ReadOne(refs, k, before, recs, got, limit);
    HoldOne(refs, k, before, first, recs, got, limit);
    longer := recs + got;
  }

  // ---------------------------------------------------------------- the steps of the merge

  lemma NothingRead(refs: seq<ArtRef>, before: int, target: int)
    ensures WindowAt(refs, 0, before, [], target) && HeldAt(refs, 0, before, target, [], target)
    ensures TightAt(refs, 0, before, target, [], target)
  {
  }

  // ---------------------------------------------------------------- how deep the page goes

  lemma CoversGrown(recs: seq<EventRec>, sorted: seq<EventRec>, target: int, grown: int, all: seq<EventRec>, limit: int)
    requires Covers(recs, target, all, limit) && Sorted(sorted) && multiset(sorted) == multiset(recs)
    requires 0 < target <= grown <= |sorted| && sorted[grown-1].seqNo == sorted[target-1].seqNo
    ensures Covers(sorted, grown, all, limit)
  {
    SortedDescends(sorted);
    forall x: int | CountAbove(all, SeqNo, x) >= limit ensures CountAbove(sorted, SeqNo, x) >= grown {
      CountAbovePermutation(recs, sorted, SeqNo, x);
      CountAboveDescending(sorted, SeqNo, x, target);
      CountAboveDescending(sorted, SeqNo, x, grown);
    }
  }

  lemma TightAndGrown(refs: seq<ArtRef>, k: nat, before: int, limit: int, recs: seq<EventRec>, sorted: seq<EventRec>,
                      target: int, grown: int)
    requires k <= |refs| && TightAt(refs, k, before, limit, recs, target) && HeldAt(refs, k, before, limit, recs, target)
    requires Sorted(sorted) && multiset(sorted) == multiset(recs)
    requires 0 < target <= grown <= |sorted| && sorted[grown-1].seqNo == sorted[target-1].seqNo
    ensures TightAt(refs, k, before, limit, sorted, grown)
  {
    hide Covers, Readable, FillsAt, DistinctSeqs, BoundedReads, Sorted, AllRecords;
    SubMultisetLength(recs, AllRecords(refs[..k], before));
    SameMultisetSameLength(sorted, recs);
    forall f: nat | f <= k && Covers(recs, target, AllRecords(refs[..f], before), limit)
      ensures Covers(sorted, grown, AllRecords(refs[..f], before), limit)
    {
      CoversGrown(recs, sorted, target, grown, AllRecords(refs[..f], before), limit);
    }
  }

  lemma PrefixLengths(refs: seq<ArtRef>, j: nat, k: nat, before: int)
    requires j <= k <= |refs|
    ensures |AllRecords(refs[..j], before)| <= |AllRecords(refs[..k], before)|
  {
    assert refs[..k][..j] == refs[..j];
    AllRecordsPrefix(refs[..k], j, before);
    SubMultisetLength(AllRecords(refs[..j], before), AllRecords(refs[..k], before));
  }

  lemma TightAtStop(refs: seq<ArtRef>, k: nat, before: int, limit: int, recs: seq<EventRec>, target: int)
    requires k < |refs| && TightAt(refs, k, before, limit, recs, target) && HeldAt(refs, k, before, limit, recs, target)
    requires limit <= target <= |recs|
    ensures TightAt(refs, |refs|, before, limit, recs, target)
  {
    hide Covers, Readable, DistinctSeqs, BoundedReads, AllRecords;
    SubMultisetLength(recs, AllRecords(refs[..k], before));
    PrefixLengths(refs, k, |refs|, before);
    forall f: nat | k < f <= |refs| ensures !FillsAt(refs, before, limit, f) {
      PrefixLengths(refs, k, f - 1, before);
    }
  }

  /** A window whose target is the limit lacks nothing among the newest `limit`. */
  lemma WindowCovers(recs: seq<EventRec>, all: seq<EventRec>, limit: int)
    requires Window(recs, all, limit)
    ensures Covers(recs, limit, all, limit)
  {
    var rest := Remainder(recs, all);
    forall x: int | CountAbove(all, SeqNo, x) >= limit ensures CountAbove(recs, SeqNo, x) >= limit {
      CountAbovePermutation(all, recs + rest, SeqNo, x);
      CountAboveConcat(recs, rest, SeqNo, x);
      if j :| 0 <= j < |rest| && rest[j].seqNo > x {
        assert rest[j] in multiset(rest);
        assert multiset(recs)[rest[j]] < multiset(all)[rest[j]];
        CountAboveMonotone(recs, SeqNo, x, rest[j].seqNo);
      } else {
        CountAboveNone(rest, SeqNo, x);
      }
    }
  }

  lemma CoversLonger(recs: seq<EventRec>, longer: seq<EventRec>, target: int, all: seq<EventRec>, limit: int)
    requires Covers(recs, target, all, limit) && recs <= longer
    ensures Covers(longer, target, all, limit)
  {
    assert longer == recs + longer[|recs|..];
    forall x: int | CountAbove(all, SeqNo, x) >= limit ensures CountAbove(longer, SeqNo, x) >= target {
      CountAboveConcat(recs, longer[|recs|..], SeqNo, x);
    }
  }

  lemma TightOne(refs: seq<ArtRef>, k: nat, before: int, limit: int, recs: seq<EventRec>, longer: seq<EventRec>, target: int)
    requires k < |refs| && TightAt(refs, k, before, limit, recs, target)
    requires WindowAt(refs, k + 1, before, longer, target) && recs <= longer
    ensures TightAt(refs, k + 1, before, limit, longer, target)
  {
    hide Covers, Readable, AllRecords, Window;
    PrefixLengths(refs, k, k + 1, before);
    if Readable(refs) {
      forall f: nat | f <= k + 1 && FillsAt(refs, before, limit, f)
        ensures Covers(longer, target, AllRecords(refs[..f], before), limit)
      {
        if f <= k {
          CoversLonger(recs, longer, target, AllRecords(refs[..f], before), limit);
        } else {
          WindowCovers(longer, AllRecords(refs[..f], before), limit);
        }
      }
    }
  }

  /** A cut of a covering window ends at or above the limit-th newest. */
  lemma CutCovers(sorted: seq<EventRec>, before: int, target: int, to: nat, page: Page, all: seq<EventRec>, limit: int)
    requires 0 < target && to <= |sorted| && Sorted(sorted) && IsCut(sorted, before, target, to, page)
    requires Covers(sorted, target, all, limit)
    ensures CountAbove(all, SeqNo, page.nextBefore) < limit
  {
    SortedDescends(sorted);
    if |sorted| >= target {
      CountAboveDescending(sorted, SeqNo, page.nextBefore, target);
    }
  }

  lemma TightPage(refs: seq<ArtRef>, before: int, limit: int, recs: seq<EventRec>, sorted: seq<EventRec>, target: int, page: Page)
    requires 0 < limit <= target && TightAt(refs, |refs|, before, limit, recs, target)
    requires Sorted(sorted) && multiset(sorted) == multiset(recs)
    requires exists to: nat | to <= |sorted| :: IsCut(sorted, before, target, to, page)
    ensures Readable(refs) ==> Tight(refs, before, limit, page)
  {
    hide Covers, Readable, FillsAt, IsCut, Sorted, AllRecords;
    var to: nat :| to <= |sorted| && IsCut(sorted, before, target, to, page);
    if Readable(refs) {
      forall f: nat | f <= |refs| && FillsAt(refs, before, limit, f)
        ensures CountAbove(AllRecords(refs[..f], before), SeqNo, page.nextBefore) < limit
      {
        CoversPermuted(recs, sorted, target, AllRecords(refs[..f], before), limit);
        CutCovers(sorted, before, target, to, page, AllRecords(refs[..f], before), limit);
      }
    }
  }

  lemma CoversPermuted(recs: seq<EventRec>, sorted: seq<EventRec>, target: int, all: seq<EventRec>, limit: int)
    requires Covers(recs, target, all, limit) && multiset(sorted) == multiset(recs)
    ensures Covers(sorted, target, all, limit)
  {
    forall x: int | CountAbove(all, SeqNo, x) >= limit ensures CountAbove(sorted, SeqNo, x) >= target {
      CountAbovePermutation(recs, sorted, SeqNo, x);
    }
  }

  // ---------------------------------------------------------------- what any page is

  lemma HeldAndGrown(refs: seq<ArtRef>, k: nat, before: int, limit: int, recs: seq<EventRec>, sorted: seq<EventRec>,
                     target: int, grown: int)
    requires k <= |refs| && HeldAt(refs, k, before, limit, recs, target)
    requires multiset(sorted) == multiset(recs)
    requires 0 < target <= grown <= |sorted| && sorted[grown-1].seqNo == sorted[target-1].seqNo
    ensures HeldAt(refs, k, before, limit, sorted, grown)
  {
    hide DistinctSeqs, AllRecords, BoundedReads;
    AllRecordsPrefix(refs, k, before);
    SameMultisetSameLength(sorted, recs);
    if DistinctSeqs(AllRecords(refs, before)) && target < grown {
      NoTies(AllRecords(refs, before), sorted, target - 1, grown - 1);
    }
  }

  lemma NoTies(all: seq<EventRec>, recs: seq<EventRec>, i: nat, j: nat)
    requires DistinctSeqs(all) && multiset(recs) <= multiset(all) && i < j < |recs|
    ensures recs[i].seqNo != recs[j].seqNo
  {
    SplitCount(recs, j);
    assert recs[i] in recs[..j] && recs[j] in recs[j..];
    assert recs[i] in multiset(recs) && recs[j] in multiset(recs);
    assert multiset(all)[recs[j]] <= 1;
  }

  lemma AllRecordsPrefix(refs: seq<ArtRef>, k: nat, before: int)
    requires k <= |refs|
    ensures multiset(AllRecords(refs[..k], before)) <= multiset(AllRecords(refs, before))
  {
    assert refs == refs[..k] + refs[k..];
    AllRecordsSplit(refs[..k], refs[k..], before);
  }

  lemma {:induction false} BoundedReadsPrefix(refs: seq<ArtRef>, k: nat, before: int, limit: int)
    requires k <= |refs|
    ensures multiset(BoundedReads(refs[..k], before, limit)) <= multiset(BoundedReads(refs, before, limit))
  {
    if k < |refs| {
      BoundedReadsPrefix(refs[..|refs|-1], k, before, limit);
      assert refs[..|refs|-1][..k] == refs[..k];
    } else {
      assert refs[..k] == refs;
    }
  }

  lemma HeldAtStop(refs: seq<ArtRef>, k: nat, before: int, limit: int, recs: seq<EventRec>, target: int)
    requires k < |refs| && HeldAt(refs, k, before, limit, recs, target) && |recs| >= target
    ensures HeldAt(refs, |refs|, before, limit, recs, target)
  {
    assert refs[..|refs|] == refs;
    AllRecordsPrefix(refs, k, before);
    BoundedReadsPrefix(refs, k, before, limit);
  }

  /** A bounded read gives records of its log, and all of them when it gives fewer than the bound. */
  lemma ReadIsPart(r: ArtRef, before: int, limit: int)
    requires limit >= 1
    ensures multiset(LogRead(r, before, limit)) <= multiset(LogRecords(r, before))
    ensures |LogRead(r, before, limit)| < limit ==> LogRead(r, before, limit) == LogRecords(r, before)
  {
    var f := Admitted(r.log, before);
    var g := if |f| > limit then GroupStart(f, |f| - limit) else 0;
    assert f[g..] == RecentHeaders(r.log, before, limit);
    assert Records(r.artifact, f[g..]) == Records(r.artifact, f)[g..];
    SplitCount(Records(r.artifact, f), g);
  }

  lemma HoldOne(refs: seq<ArtRef>, k: nat, before: int, limit: int, recs: seq<EventRec>, got: seq<EventRec>, target: int)
    requires k < |refs| && target >= 1 && HeldAt(refs, k, before, limit, recs, target)
    requires got == LogRead(refs[k], before, target)
    ensures HeldAt(refs, k + 1, before, limit, recs + got, target)
  {
    ReadIsPart(refs[k], before, target);
    assert refs[..k+1][..k] == refs[..k];
    hide Records, RecentHeaders, LogRead, LogRecords, DistinctSeqs;
  }

  lemma DrawPage(refs: seq<ArtRef>, before: int, limit: int, recs: seq<EventRec>, sorted: seq<EventRec>, target: int, page: Page)
    requires 0 < limit <= target && HeldAt(refs, |refs|, before, limit, recs, target)
    requires Sorted(sorted) && multiset(sorted) == multiset(recs)
    requires exists to: nat | to <= |sorted| :: IsCut(sorted, before, target, to, page)
    ensures Drawn(refs, before, limit, page)
    ensures DistinctSeqs(AllRecords(refs, before)) ==>
              && multiset(page.events) <= multiset(BoundedReads(refs, before, limit))
              && |page.events| == Least(limit, |AllRecords(refs, before)|)
  {
    hide DistinctSeqs, AllRecords, BoundedReads, HeldAt;
    HeldAtEnd(refs, before, limit, recs, target);
    hide IsCut, Sorted;
    var to: nat :| to <= |sorted| && IsCut(sorted, before, target, to, page);
    SameMultisetSameLength(recs, sorted);
    if |recs| < target {
      SameMultisetSameLength(recs, AllRecords(refs, before));
    }
    CutDraws(sorted, AllRecords(refs, before), before, limit, target, to, page);
    if DistinctSeqs(AllRecords(refs, before)) {
      CutIsShort(sorted, AllRecords(refs, before), before, limit, to, page);
    }
  }

  /** Without ties the cut is not extended. */
  lemma CutIsShort(sorted: seq<EventRec>, all: seq<EventRec>, before: int, limit: int, to: nat, page: Page)
    requires 0 < limit && to <= |sorted| && IsCut(sorted, before, limit, to, page)
    requires DistinctSeqs(all) && multiset(sorted) <= multiset(all) && (|sorted| < limit ==> |sorted| == |all|)
    ensures |page.events| == Least(limit, |all|)
  {
    SubMultisetLength(sorted, all);
    if to > limit {
      NoTies(all, sorted, limit - 1, to - 1);
    }
  }

  lemma CutDraws(sorted: seq<EventRec>, all: seq<EventRec>, before: int, limit: int, target: int, to: nat, page: Page)
    requires 0 < limit <= target && to <= |sorted| && IsCut(sorted, before, target, to, page)
    requires Sorted(sorted) && multiset(sorted) <= multiset(all) && (|sorted| < target ==> |sorted| == |all|)
    ensures DrawnFrom(all, before, limit, page) && multiset(page.events) <= multiset(sorted)
  {
    PrefixIsPart(sorted, to);
    hide Sorted;
  }

  lemma HeldAtEnd(refs: seq<ArtRef>, before: int, limit: int, recs: seq<EventRec>, target: int)
    requires HeldAt(refs, |refs|, before, limit, recs, target)
    ensures multiset(recs) <= multiset(AllRecords(refs, before))
    ensures |recs| < target ==> multiset(recs) == multiset(AllRecords(refs, before))
    ensures DistinctSeqs(AllRecords(refs, before)) ==>
              target == limit && multiset(recs) <= multiset(BoundedReads(refs, before, limit))
  {
    assert refs[..|refs|] == refs;
    hide DistinctSeqs, AllRecords, BoundedReads;
  }

  lemma PrefixIsPart(recs: seq<EventRec>, to: nat)
    requires Sorted(recs) && to <= |recs|
    ensures Sorted(recs[..to]) && multiset(recs[..to]) <= multiset(recs)
  {
    SplitCount(recs, to);
  }

  lemma SortedAndGrown(refs: seq<ArtRef>, k: nat, before: int, recs: seq<EventRec>, sorted: seq<EventRec>, target: int, grown: int)
    requires k <= |refs| && WindowAt(refs, k, before, recs, target)
    requires Sorted(sorted) && multiset(sorted) == multiset(recs)
    requires 0 < target <= grown <= |sorted| && sorted[grown-1].seqNo == sorted[target-1].seqNo
    ensures WindowAt(refs, k, before, sorted, grown)
  {
    if Readable(refs) {
      WindowPermuted(recs, sorted, AllRecords(refs[..k], before), target);
      WindowGrown(sorted, AllRecords(refs[..k], before), target, grown);
    }
  }

  lemma StopEarly(refs: seq<ArtRef>, k: nat, before: int, recs: seq<EventRec>, target: int)
    requires k < |refs| && WindowAt(refs, k, before, recs, target)
    requires Sorted(recs) && 0 < target <= |recs| && refs[k].upperSeq < recs[target-1].seqNo
    ensures WindowAt(refs, |refs|, before, recs, target)
  {
    assert refs[..|refs|] == refs;
    if Readable(refs) {
      UnreadAreOlder(refs, k, before, recs, target);
    }
  }

  lemma ReadOne(refs: seq<ArtRef>, k: nat, before: int, recs: seq<EventRec>, got: seq<EventRec>, target: int)
    requires k < |refs| && target >= 1 && WindowAt(refs, k, before, recs, target)
    requires got == Records(refs[k].artifact, RecentHeaders(refs[k].log, before, target))
    ensures WindowAt(refs, k + 1, before, recs + got, target)
  {
    if Readable(refs) {
      hide Window, Records, RecentHeaders, LogRecords;
      assert Chronological(refs[k].log);
      hide Chronological, Readable;
      ReadWindow(refs[k], before, target);
      WindowExtended(recs, got, AllRecords(refs[..k], before), LogRecords(refs[k], before), target);
      assert refs[..k+1][..k] == refs[..k];
    }
  }

  lemma CutPage(refs: seq<ArtRef>, before: int, limit: int, recs: seq<EventRec>, sorted: seq<EventRec>, target: int, page: Page)
    requires 0 < limit <= target && WindowAt(refs, |refs|, before, recs, target)
    requires Sorted(sorted) && multiset(sorted) == multiset(recs)
    requires exists to: nat | to <= |sorted| :: IsCut(sorted, before, target, to, page)
    requires Drawn(refs, before, limit, page)
    ensures Readable(refs) ==> IsPage(refs, before, limit, page)
  {
    assert refs[..|refs|] == refs;
    if Readable(refs) {
      WindowPermuted(recs, sorted, AllRecords(refs, before), target);
      var to: nat :| to <= |sorted| && IsCut(sorted, before, target, to, page);
      if to > 0 {
        CutSeparates(sorted, to);
        CutTakes(sorted, AllRecords(refs, before), target, to);
      }
    }
  }

  // ---------------------------------------------------------------- why the window suffices

  lemma SortedDescends(s: seq<EventRec>)
    requires Sorted(s)
    ensures Descending(s, SeqNo)
  {
    forall i, j | 0 <= i < j < |s| ensures SeqNo(s[i]) >= SeqNo(s[j]) {
      assert Ahead(s[i], s[j]);
    }
  }

  lemma WindowPermuted(recs: seq<EventRec>, sorted: seq<EventRec>, all: seq<EventRec>, target: int)
    requires Window(recs, all, target)
    requires multiset(recs) == multiset(sorted)
    ensures Window(sorted, all, target)
  {
    forall e | multiset(sorted)[e] < multiset(all)[e] ensures CountAbove(sorted, SeqNo, e.seqNo) >= target {
      CountAbovePermutation(recs, sorted, SeqNo, e.seqNo);
    }
  }

  /** Growing the target over one millisecond keeps the window: what is missing lies below that millisecond. */
  lemma WindowGrown(recs: seq<EventRec>, all: seq<EventRec>, target: int, grown: int)
    requires Window(recs, all, target) && Sorted(recs)
    requires 0 < target <= grown <= |recs|
    requires recs[grown-1].seqNo == recs[target-1].seqNo
    ensures Window(recs, all, grown)
  {
    SortedDescends(recs);
    forall e | multiset(recs)[e] < multiset(all)[e] ensures CountAbove(recs, SeqNo, e.seqNo) >= grown {
      CountAboveDescending(recs, SeqNo, e.seqNo, target);
      CountAboveDescending(recs, SeqNo, e.seqNo, grown);
    }
  }

  /** One bounded read is itself a window onto its log. */
  lemma ReadWindow(r: ArtRef, before: int, limit: int)
    requires limit >= 1 && Chronological(r.log)
    ensures Window(Records(r.artifact, RecentHeaders(r.log, before, limit)), LogRecords(r, before), limit)
  {
    hide Admitted, RecentHeaders, Records, Window, Chronological;
    var f := Admitted(r.log, before);
    var g := RecentIsTail(r.log, before, limit);
    RecordsTail(r.artifact, f, g);
    TailWindow(Records(r.artifact, f), g, limit);
  }

  lemma RecordsTail(artifact: int, f: seq<Header>, g: nat)
    requires Chronological(f) && g <= |f|
    requires 0 < g < |f| ==> f[g-1].millis < f[g].millis
    ensures Records(artifact, f[g..]) == Records(artifact, f)[g..]
    ensures forall i, j :: 0 <= i < g <= j < |f| ==> Records(artifact, f)[i].seqNo < Records(artifact, f)[j].seqNo
  {
    forall i, j | 0 <= i < g <= j < |f| ensures f[i].millis < f[j].millis {
      assert f[i].millis <= f[g-1].millis < f[g].millis <= f[j].millis;
    }
  }

  lemma TailWindow(all: seq<EventRec>, g: nat, limit: int)
    requires g <= |all| && (g > 0 ==> g + limit <= |all|)
    requires forall i, j :: 0 <= i < g <= j < |all| ==> all[i].seqNo < all[j].seqNo
    ensures Window(all[g..], all, limit)
  {
    SplitCount(all, g);
    forall e | multiset(all[g..])[e] < multiset(all)[e] ensures CountAbove(all[g..], SeqNo, e.seqNo) >= limit {
      assert e in all[..g];
      var i :| 0 <= i < g && all[i] == e;
      forall j | 0 <= j < |all[g..]| ensures SeqNo(all[g..][j]) > e.seqNo {
        assert all[g..][j] == all[g+j];
      }
      CountAboveAll(all[g..], SeqNo, e.seqNo);
    }
  }

  lemma WindowExtended(recs: seq<EventRec>, got: seq<EventRec>, all: seq<EventRec>, more: seq<EventRec>, target: int)
    requires Window(recs, all, target) && Window(got, more, target)
    ensures Window(recs + got, all + more, target)
  {
    forall e | multiset(recs + got)[e] < multiset(all + more)[e]
      ensures CountAbove(recs + got, SeqNo, e.seqNo) >= target
    {
      CountAboveConcat(recs, got, SeqNo, e.seqNo);
      assert multiset(recs)[e] < multiset(all)[e] || multiset(got)[e] < multiset(more)[e];
    }
  }

  lemma {:induction false} AllRecordsBounded(refs: seq<ArtRef>, before: int, bound: int, e: EventRec)
    requires forall r, h :: r in refs && h in r.log ==> h.millis < bound
    requires e in AllRecords(refs, before)
    ensures e.seqNo < bound
  {
    var last := refs[|refs|-1];
    if e in LogRecords(last, before) {
      var i :| 0 <= i < |LogRecords(last, before)| && LogRecords(last, before)[i] == e;
      AdmittedFrom(last.log, before, Admitted(last.log, before)[i]);
    } else {
      AllRecordsBounded(refs[..|refs|-1], before, bound, e);
    }
  }

  lemma {:induction false} AllRecordsSplit(a: seq<ArtRef>, b: seq<ArtRef>, before: int)
    ensures AllRecords(a + b, before) == AllRecords(a, before) + AllRecords(b, before)
  {
    if b == [] {
      assert a + b == a;
    } else {
      assert (a + b)[..|a + b|-1] == a + b[..|b|-1];
      AllRecordsSplit(a, b[..|b|-1], before);
    }
  }

  /** Once the next bound is below the boundary, no unread log can hold a record above it. */
  lemma UnreadAreOlder(refs: seq<ArtRef>, k: nat, before: int, recs: seq<EventRec>, target: int)
    requires Readable(refs) && k < |refs|
    requires Sorted(recs) && 0 < target <= |recs|
    requires refs[k].upperSeq < recs[target-1].seqNo
    requires Window(recs, AllRecords(refs[..k], before), target)
    ensures Window(recs, AllRecords(refs, before), target)
  {
    assert refs == refs[..k] + refs[k..];
    AllRecordsSplit(refs[..k], refs[k..], before);
    SortedDescends(recs);
    var read, unread := AllRecords(refs[..k], before), AllRecords(refs[k..], before);
    forall e | multiset(recs)[e] < multiset(read + unread)[e] ensures CountAbove(recs, SeqNo, e.seqNo) >= target {
      if multiset(unread)[e] > 0 {
        UnreadBelow(refs, k, before, recs[target-1].seqNo, e);
        CountAboveDescending(recs, SeqNo, e.seqNo, target);
      }
    }
  }

  lemma UnreadBelow(refs: seq<ArtRef>, k: nat, before: int, boundary: int, e: EventRec)
    requires Readable(refs) && k < |refs| && refs[k].upperSeq < boundary
    requires e in AllRecords(refs[k..], before)
    ensures e.seqNo < boundary
  {
    forall r, h | r in refs[k..] && h in r.log ensures h.millis < boundary {
      var i :| k <= i < |refs| && refs[i] == r;
      assert k < i ==> UpperSeq(refs[k]) >= UpperSeq(refs[i]);
    }
    AllRecordsBounded(refs[k..], before, boundary, e);
  }

  lemma CutTakes(recs: seq<EventRec>, all: seq<EventRec>, target: int, to: nat)
    requires 0 < target && 0 < to <= |recs|
    requires to >= (if |recs| < target then |recs| else target)
    requires to > target ==> recs[to-1].seqNo == recs[target-1].seqNo
    requires Sorted(recs) && Window(recs, all, target) && Separated(recs, to)
    ensures TakesFrom(recs[..to], all, recs[to-1].seqNo)
  {
    hide Sorted, Window, Separated;
    forall e: EventRec
      ensures multiset(recs[..to])[e] == if e.seqNo >= recs[to-1].seqNo then multiset(all)[e] else 0
    {
      PageTakes(recs, all, target, to, e);
    }
  }

  ghost predicate Separated(recs: seq<EventRec>, to: nat)
    requires 0 < to <= |recs|
  {
    && (forall i :: 0 <= i < to ==> recs[i].seqNo >= recs[to-1].seqNo)
    && (forall i :: to <= i < |recs| ==> recs[i].seqNo < recs[to-1].seqNo)
  }

  lemma CutSeparates(recs: seq<EventRec>, to: nat)
    requires Sorted(recs) && 0 < to <= |recs|
    requires to < |recs| ==> recs[to].seqNo != recs[to-1].seqNo
    ensures Separated(recs, to)
  {
    forall i | 0 <= i < to ensures recs[i].seqNo >= recs[to-1].seqNo {
      assert i < to - 1 ==> Ahead(recs[i], recs[to-1]);
    }
    forall i | to <= i < |recs| ensures recs[i].seqNo < recs[to-1].seqNo {
      assert Ahead(recs[to-1], recs[to]);
      assert to < i ==> Ahead(recs[to], recs[i]);
    }
  }

  /** One record: kept in full at or above the cut, absent below it. */
  lemma PageTakes(recs: seq<EventRec>, all: seq<EventRec>, target: int, to: nat, e: EventRec)
    requires 0 < target && 0 < to <= |recs|
    requires to >= (if |recs| < target then |recs| else target)
    requires to > target ==> recs[to-1].seqNo == recs[target-1].seqNo
    requires Sorted(recs) && Window(recs, all, target) && Separated(recs, to)
    ensures multiset(recs[..to])[e] == if e.seqNo >= recs[to-1].seqNo then multiset(all)[e] else 0
  {
    SplitCount(recs, to);
    if e.seqNo >= recs[to-1].seqNo {
      assert e !in recs[to..];
      if multiset(recs)[e] < multiset(all)[e] {
        NotMissedAboveCut(recs, all, target, to, e);
      }
    } else {
      assert e !in recs[..to];
    }
  }

  lemma NotMissedAboveCut(recs: seq<EventRec>, all: seq<EventRec>, target: int, to: nat, e: EventRec)
    requires 0 < target && 0 < to <= |recs|
    requires to >= (if |recs| < target then |recs| else target)
    requires to > target ==> recs[to-1].seqNo == recs[target-1].seqNo
    requires Sorted(recs) && Window(recs, all, target)
    requires multiset(recs)[e] < multiset(all)[e]
    ensures e.seqNo < recs[to-1].seqNo
  {
    SortedDescends(recs);
    CountAboveDescending(recs, SeqNo, e.seqNo, target);
  }
}
