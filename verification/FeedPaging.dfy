/** Following the cursor: what the pages of the event feed add up to. */
module FeedPaging {
  import opened FeedOrder
  import opened EventReader
  import opened EventFeed

  // ---------------------------------------------------------------- building the refs

  /** The bound the accessor sorts by: the newest main-branch event, or the log's modification time
      when side branches (which do not move `updatedAt`) may be newer. */
  function Upper(a: Artifact): int {
    if (a.updatedAt == 0 || a.sideBranch) && a.logModTime > a.updatedAt then a.logModTime else a.updatedAt
  }

  /** What the store keeps true of an artifact's metadata and log. */
  ghost predicate StoreKeeps(a: Artifact) {
    && Chronological(a.log)
    && (forall h :: h in a.log && h.onMain ==> h.millis <= a.updatedAt)
    && (forall h :: h in a.log && !h.onMain ==> a.sideBranch && h.millis <= a.logModTime)
  }

  function RefOf(a: Artifact): ArtRef { ArtRef(a.id, Upper(a), a.log) }

  lemma UpperBoundsLog(a: Artifact, h: Header)
    requires StoreKeeps(a) && h in a.log
    ensures h.millis <= RefOf(a).upperSeq
  {
  }

  /** The bound is no looser than it need be: it is the newest main-branch event, unless side branches or an
      unset time leave only the log's own time to go by. */
  lemma UpperIsTight(a: Artifact)
    requires StoreKeeps(a)
    ensures !a.sideBranch && a.updatedAt != 0 ==> Upper(a) == a.updatedAt
    ensures Upper(a) >= a.updatedAt && Upper(a) in {a.updatedAt, a.logModTime}
    ensures forall h :: h in a.log ==> h.millis <= Upper(a)
  {
    forall h | h in a.log ensures h.millis <= Upper(a) {
      UpperBoundsLog(a, h);
    }
  }

  function RefsOf(arts: seq<Artifact>): (refs: seq<ArtRef>)
    ensures |refs| == |arts|
    ensures forall i :: 0 <= i < |arts| ==> refs[i] == RefOf(arts[i])
  {
    seq(|arts|, i requires 0 <= i < |arts| => RefOf(arts[i]))
  }

  lemma RefsOfNext(arts: seq<Artifact>, i: nat)
    requires i < |arts|
    ensures RefsOf(arts[..i+1]) == RefsOf(arts[..i]) + [RefOf(arts[i])]
  {
  }

  /** Largest bound first; equal bounds by kind and id, which `artifact` stands for, largest first. */
  predicate RefAhead(a: ArtRef, b: ArtRef) {
    a.upperSeq > b.upperSeq || (a.upperSeq == b.upperSeq && a.artifact >= b.artifact)
  }

  predicate RefsSorted(refs: seq<ArtRef>) {
    forall i, j :: 0 <= i < j < |refs| ==> RefAhead(refs[i], refs[j])
  }

  lemma SortedBounds(refs: seq<ArtRef>)
    requires RefsSorted(refs)
    ensures Descending(refs, UpperSeq)
  {
    forall i, j | 0 <= i < j < |refs| ensures UpperSeq(refs[i]) >= UpperSeq(refs[j]) {
      assert RefAhead(refs[i], refs[j]);
    }
  }

  /** No two artifacts share both their bound and their kind and id. */
  predicate DistinctRefs(refs: seq<ArtRef>) {
    forall i, j :: 0 <= i < |refs| && 0 <= j < |refs| && refs[i].upperSeq == refs[j].upperSeq && refs[i].artifact == refs[j].artifact ==>
      refs[i] == refs[j]
  }

  /** The order of the refs leaves nothing to the listing. */
  lemma {:induction false} RefsUnique(s: seq<ArtRef>, t: seq<ArtRef>)
    requires RefsSorted(s) && RefsSorted(t) && multiset(s) == multiset(t) && DistinctRefs(s)
    ensures s == t
  {
    SameMultisetSameLength(s, t);
    if s != [] {
      RefsHead(s, t);
      TailCount(s);
      TailCount(t);
      RefsUnique(s[1..], t[1..]);
      assert s == [s[0]] + s[1..] && t == [t[0]] + t[1..];
    }
  }

  lemma RefsHead(s: seq<ArtRef>, t: seq<ArtRef>)
    requires RefsSorted(s) && RefsSorted(t) && multiset(s) == multiset(t) && DistinctRefs(s)
    requires s != [] && t != []
    ensures s[0] == t[0]
  {
    assert t[0] in multiset(s) && s[0] in multiset(t);
    var i :| 0 <= i < |s| && s[i] == t[0];
    var j :| 0 <= j < |t| && t[j] == s[0];
    assert (i > 0 ==> RefAhead(s[0], t[0])) && (j > 0 ==> RefAhead(t[0], s[0]));
    assert s[i] == s[0];
  }

  method InsertionPoint(refs: seq<ArtRef>, r: ArtRef) returns (p: nat)
    ensures p <= |refs| && (p < |refs| ==> RefAhead(r, refs[p]))
    ensures forall q :: 0 <= q < p ==> RefAhead(refs[q], r)
  {
    p := 0;
    while p < |refs| && RefAhead(refs[p], r)
      invariant p <= |refs|
      invariant forall q :: 0 <= q < p ==> RefAhead(refs[q], r)
    {
      p := p + 1;
    }
  }

  /** Lists every artifact with its bound, in the order the merge reads them. */
  method EventRefs(arts: seq<Artifact>) returns (refs: seq<ArtRef>)
    ensures RefsSorted(refs) && Descending(refs, UpperSeq)
    ensures multiset(refs) == multiset(RefsOf(arts))
  {
    hide Descending, RefOf, UpperSeq, RefsSorted, RefAhead;
    refs := [];
    NoneSorted();
    var i := 0;
    while i < |arts|
      invariant 0 <= i <= |arts|
      invariant RefsSorted(refs)
      invariant multiset(refs) == multiset(RefsOf(arts[..i]))
    {
      var r := RefOf(arts[i]);
      RefsOfNext(arts, i);
      var p := InsertionPoint(refs, r);
      InsertSorted(refs, r, p);
      refs := refs[..p] + [r] + refs[p..];
      i := i + 1;
    }
    assert arts[..i] == arts;
    SortedBounds(refs);
  }

  lemma NoneSorted()
    ensures RefsSorted([])
  {
  }

  lemma InsertSorted(refs: seq<ArtRef>, r: ArtRef, p: nat)
    requires RefsSorted(refs) && p <= |refs|
    requires forall q :: 0 <= q < p ==> RefAhead(refs[q], r)
    requires p < |refs| ==> RefAhead(r, refs[p])
    ensures RefsSorted(refs[..p] + [r] + refs[p..])
    ensures multiset(refs[..p] + [r] + refs[p..]) == multiset(refs) + multiset{r}
  {
    SplitCount(refs, p);
    forall q | p <= q < |refs| ensures RefAhead(r, refs[q]) {
      assert p < q ==> RefAhead(refs[p], refs[q]);
    }
    SortedRefsJoin(refs[..p], [r]);
    SortedRefsJoin(refs[..p] + [r], refs[p..]);
  }

  lemma SortedRefsJoin(a: seq<ArtRef>, b: seq<ArtRef>)
    requires RefsSorted(a) && RefsSorted(b)
    requires forall i, j :: 0 <= i < |a| && 0 <= j < |b| ==> RefAhead(a[i], b[j])
    ensures RefsSorted(a + b)
  {
    hide RefAhead;
  }

  lemma RefsReadable(arts: seq<Artifact>, refs: seq<ArtRef>)
    requires forall a :: a in arts ==> StoreKeeps(a)
    requires Descending(refs, UpperSeq) && multiset(refs) == multiset(RefsOf(arts))
    ensures Readable(refs)
  {
    forall r | r in refs ensures Chronological(r.log) && forall h :: h in r.log ==> h.millis <= r.upperSeq {
      assert r in multiset(RefsOf(arts));
      var i :| 0 <= i < |arts| && RefsOf(arts)[i] == r;
      assert StoreKeeps(arts[i]);
      forall h | h in r.log ensures h.millis <= r.upperSeq {
        UpperBoundsLog(arts[i], h);
      }
    }
  }

  /** One dashboard request, without the page cache. */
  method Backfill(arts: seq<Artifact>, before: int, limit: int) returns (page: Page, ghost refs: seq<ArtRef>)
    ensures limit <= 0 ==> page == Page([], before)
    ensures multiset(refs) == multiset(RefsOf(arts))
    ensures limit > 0 ==> Drawn(refs, before, limit, page)
    ensures limit > 0 && DistinctSeqs(AllRecords(refs, before)) ==> |page.events| == Least(limit, |AllRecords(refs, before)|)
    ensures limit > 0 && (forall a :: a in arts ==> StoreKeeps(a)) ==>
              Readable(refs) && IsPage(refs, before, limit, page) && Tight(refs, before, limit, page)
  {
    hide Tight, DistinctSeqs, IsPage, Drawn;
    if limit <= 0 {
      return Page([], before), RefsOf(arts);
    }
    var sorted := EventRefs(arts);
    page := MaterializePage(sorted, before, limit);
    refs := sorted;
    if forall a :: a in arts ==> StoreKeeps(a) {
      RefsReadable(arts, refs);
    }
  }

  // ---------------------------------------------------------------- following the cursor

  function Cursor(pages: seq<Page>): int {
    if pages == [] then 0 else pages[|pages|-1].nextBefore
  }

  /** Each page answers the cursor left by the one before it, under a limit of its own; the first starts
      from the newest. */
  ghost predicate IsPaging(refs: seq<ArtRef>, limits: seq<int>, pages: seq<Page>)
    decreases |pages|
  {
    |limits| == |pages| && (pages != [] ==>
      var n := |pages| - 1;
      limits[n] > 0 && IsPaging(refs, limits[..n], pages[..n]) && IsPage(refs, Cursor(pages[..n]), limits[n], pages[n]))
  }

  function Concat(pages: seq<Page>): seq<EventRec> {
    if pages == [] then [] else Concat(pages[..|pages|-1]) + pages[|pages|-1].events
  }

  /** Every record of the store. */
  function Feed(refs: seq<ArtRef>): seq<EventRec> { AllRecords(refs, 0) }

  /** Some artifact's log holds the event the record tells of, under its time, its id and its artifact. */
  ghost predicate Logged(arts: seq<Artifact>, e: EventRec) {
    exists i, j :: 0 <= i < |arts| && 0 <= j < |arts[i].log|
                && e == EventRec(arts[i].log[j].millis, arts[i].log[j].eventId, arts[i].id)
  }

  /** The feed shows all and only the events of the store's logs, whatever branch they are on. */
  lemma {:induction false} FeedIsLogged(arts: seq<Artifact>, e: EventRec)
    ensures e in Feed(RefsOf(arts)) <==> Logged(arts, e)
  {
    if arts != [] {
      var n := |arts| - 1;
      var front, a := arts[..n], arts[n];
      FeedIsLogged(front, e);
      RefsOfNext(arts, n);
      assert arts[..n+1] == arts;
      assert RefsOf(arts)[..n] == RefsOf(front) && RefsOf(arts)[n] == RefOf(a);
      AdmittedAll(a.log);
      LoggedSnoc(arts, e);
      hide Feed, Logged;
      if j :| 0 <= j < |a.log| && e == EventRec(a.log[j].millis, a.log[j].eventId, a.id) {
        assert LogRecords(RefOf(a), 0)[j] == e;
      }
    }
  }

  lemma LoggedSnoc(arts: seq<Artifact>, e: EventRec)
    requires arts != []
    ensures var n := |arts| - 1;
      Logged(arts, e) <==>
        Logged(arts[..n], e) || exists j :: 0 <= j < |arts[n].log| && e == EventRec(arts[n].log[j].millis, arts[n].log[j].eventId, arts[n].id)
  {
    var n := |arts| - 1;
    if i, j :| 0 <= i < n && 0 <= j < |arts[..n][i].log| && e == EventRec(arts[..n][i].log[j].millis, arts[..n][i].log[j].eventId, arts[..n][i].id) {
      assert arts[i] == arts[..n][i];
    }
    if i, j :| 0 <= i < |arts| && 0 <= j < |arts[i].log| && e == EventRec(arts[i].log[j].millis, arts[i].log[j].eventId, arts[i].id) {
      assert i < n ==> arts[i] == arts[..n][i];
    }
  }

  predicate PositiveSeqs(s: seq<EventRec>) {
    forall e :: e in s ==> e.seqNo >= 1
  }

  /** `done` is the part of the feed at or above cursor `c`; nothing yet when no cursor was set. */
  ghost predicate Taken(done: seq<EventRec>, feed: seq<EventRec>, c: int) {
    && Sorted(done)
    && (c <= 0 ==> done == [])
    && (c > 0 ==> forall e: EventRec :: multiset(done)[e] == if e.seqNo >= c then multiset(feed)[e] else 0)
  }

  lemma {:induction false} AdmittedCount(artifact: int, log: seq<Header>, before: int, e: EventRec)
    ensures multiset(Records(artifact, Admitted(log, before)))[e]
         == if before <= 0 || e.seqNo < before then multiset(Records(artifact, Admitted(log, 0)))[e] else 0
  {
    if log != [] {
      AdmittedCount(artifact, log[1..], before, e);
      RecordsCons(artifact, log[0], Admitted(log[1..], before));
      RecordsCons(artifact, log[0], Admitted(log[1..], 0));
    }
  }

  lemma RecordsCons(artifact: int, h: Header, rest: seq<Header>)
    ensures Records(artifact, [h] + rest) == [RecordFor(artifact, h)] + Records(artifact, rest)
  {
  }

  /** The cursor keeps exactly the records below it. */
  lemma {:induction false} AllRecordsCount(refs: seq<ArtRef>, before: int, e: EventRec)
    ensures multiset(AllRecords(refs, before))[e]
         == if before <= 0 || e.seqNo < before then multiset(Feed(refs))[e] else 0
  {
    if refs != [] {
      AllRecordsCount(refs[..|refs|-1], before, e);
      var last := refs[|refs|-1];
      AdmittedCount(last.artifact, last.log, before, e);
    }
  }

  lemma PageOverCursor(refs: seq<ArtRef>, c: int, limit: int, page: Page, e: EventRec)
    requires limit > 0 && IsPage(refs, c, limit, page) && page.events != []
    ensures multiset(page.events)[e]
         == if e.seqNo >= page.nextBefore && (c <= 0 || e.seqNo < c) then multiset(Feed(refs))[e] else 0
  {
    AllRecordsCount(refs, c, e);
  }

  lemma EmptyPage(refs: seq<ArtRef>, c: int, limit: int, page: Page)
    requires limit > 0 && IsPage(refs, c, limit, page) && page.events == []
    ensures AllRecords(refs, c) == []
  {
  }

  lemma TakenStep(refs: seq<ArtRef>, limit: int, done: seq<EventRec>, c: int, page: Page)
    requires limit > 0 && PositiveSeqs(Feed(refs))
    requires Taken(done, Feed(refs), c) && IsPage(refs, c, limit, page) && page.events != []
    ensures 0 < page.nextBefore && (c > 0 ==> page.nextBefore < c)
    ensures Taken(done + page.events, Feed(refs), page.nextBefore)
  {
    var last := page.events[|page.events|-1];
    PageOverCursor(refs, c, limit, page, last);
    LastIsCounted(page.events);
    assert last in multiset(Feed(refs));
    forall e: EventRec
      ensures multiset(done + page.events)[e] == if e.seqNo >= page.nextBefore then multiset(Feed(refs))[e] else 0
    {
      PageOverCursor(refs, c, limit, page, e);
    }
    forall i, j | 0 <= i < |done| && 0 <= j < |page.events|
      ensures Ahead(done[i], page.events[j])
    {
      assert done[i] in multiset(done);
      assert page.events[j] in multiset(page.events);
      PageOverCursor(refs, c, limit, page, page.events[j]);
    }
    SortedConcat(done, page.events);
  }

  lemma SortedConcat(a: seq<EventRec>, b: seq<EventRec>)
    requires Sorted(a) && Sorted(b)
    requires forall i, j :: 0 <= i < |a| && 0 <= j < |b| ==> Ahead(a[i], b[j])
    ensures Sorted(a + b)
  {
  }

  lemma {:induction false} PagingTaken(refs: seq<ArtRef>, limits: seq<int>, pages: seq<Page>)
    requires PositiveSeqs(Feed(refs)) && IsPaging(refs, limits, pages)
    ensures Taken(Concat(pages), Feed(refs), Cursor(pages))
  {
    if pages != [] {
      var front, page := pages[..|pages|-1], pages[|pages|-1];
      PagingTaken(refs, limits[..|pages|-1], front);
      if page.events == [] {
        assert Concat(front) + page.events == Concat(front);
      } else {
        TakenStep(refs, limits[|pages|-1], Concat(front), Cursor(front), page);
      }
    }
  }

  /** Paging until an empty page yields the whole feed, in order: nothing lost, nothing repeated. */
  lemma PagesAreTheFeed(refs: seq<ArtRef>, limits: seq<int>, pages: seq<Page>)
    requires PositiveSeqs(Feed(refs)) && IsPaging(refs, limits, pages)
    requires pages != [] && pages[|pages|-1].events == []
    ensures Sorted(Concat(pages)) && multiset(Concat(pages)) == multiset(Feed(refs))
  {
    var front, c := pages[..|pages|-1], Cursor(pages[..|pages|-1]);
    PagingTaken(refs, limits, pages);
    EmptyPage(refs, c, limits[|pages|-1], pages[|pages|-1]);
    forall e: EventRec ensures multiset(Concat(pages))[e] == multiset(Feed(refs))[e] {
      AllRecordsCount(refs, c, e);
    }
  }

  /** With distinct event ids the pages are the one sorted feed, record for record. */
  lemma PagesAreTheSortedFeed(refs: seq<ArtRef>, limits: seq<int>, pages: seq<Page>, sorted: seq<EventRec>)
    requires PositiveSeqs(Feed(refs)) && IsPaging(refs, limits, pages)
    requires pages != [] && pages[|pages|-1].events == []
    requires Sorted(sorted) && multiset(sorted) == multiset(Feed(refs))
    requires DistinctKeys(sorted)
    ensures Concat(pages) == sorted
  {
    PagesAreTheFeed(refs, limits, pages);
    SortedUnique(sorted, Concat(pages));
  }

  /** No two records of `s` share both their millisecond and their event id. */
  predicate DistinctKeys(s: seq<EventRec>) {
    forall i, j :: 0 <= i < |s| && 0 <= j < |s| && s[i].seqNo == s[j].seqNo && s[i].eventId == s[j].eventId ==> s[i] == s[j]
  }

  lemma {:induction false} SortedUnique(s: seq<EventRec>, t: seq<EventRec>)
    requires Sorted(s) && Sorted(t) && multiset(s) == multiset(t)
    requires DistinctKeys(s)
    ensures s == t
  {
    SameMultisetSameLength(s, t);
    if s != [] {
      SortedHead(s, t);
      TailCount(s);
      TailCount(t);
      SortedUnique(s[1..], t[1..]);
      assert s == [s[0]] + s[1..] && t == [t[0]] + t[1..];
    }
  }

  lemma SortedHead(s: seq<EventRec>, t: seq<EventRec>)
    requires Sorted(s) && Sorted(t) && multiset(s) == multiset(t)
    requires s != [] && t != []
    requires DistinctKeys(s)
    ensures s[0] == t[0]
  {
    assert t[0] in multiset(s) && s[0] in multiset(t);
    var i :| 0 <= i < |s| && s[i] == t[0];
    var j :| 0 <= j < |t| && t[j] == s[0];
    assert (i > 0 ==> Ahead(s[0], t[0])) && (j > 0 ==> Ahead(t[0], s[0]));
    assert s[i] == s[0];
  }

  /** Pages never share a millisecond: everything on an earlier page is strictly newer. */
  lemma MillisecondsStayTogether(refs: seq<ArtRef>, limits: seq<int>, pages: seq<Page>, i: nat, x: EventRec, y: EventRec)
    requires PositiveSeqs(Feed(refs)) && IsPaging(refs, limits, pages)
    requires i < |pages| - 1 && x in pages[i].events && y in pages[|pages|-1].events
    ensures x.seqNo > y.seqNo
  {
    var front := pages[..|pages|-1];
    PagingTaken(refs, limits[..|pages|-1], front);
    InConcat(front, i, x);
    assert x in multiset(Concat(front));
    assert y in multiset(pages[|pages|-1].events);
    PageOverCursor(refs, Cursor(front), limits[|pages|-1], pages[|pages|-1], y);
  }

  lemma {:induction false} InConcat(pages: seq<Page>, i: nat, x: EventRec)
    requires i < |pages| && x in pages[i].events
    ensures x in Concat(pages)
  {
    if i < |pages| - 1 {
      InConcat(pages[..|pages|-1], i, x);
    }
  }

  lemma {:induction false} NonEmptyPagesCount(pages: seq<Page>)
    requires forall i :: 0 <= i < |pages| ==> pages[i].events != []
    ensures |pages| <= |Concat(pages)|
  {
    if pages != [] {
      NonEmptyPagesCount(pages[..|pages|-1]);
    }
  }

  lemma {:induction false} PageOf(refs: seq<ArtRef>, limits: seq<int>, pages: seq<Page>, i: nat)
    requires IsPaging(refs, limits, pages) && i < |pages|
    ensures |limits| == |pages| && limits[i] > 0 && IsPage(refs, Cursor(pages[..i]), limits[i], pages[i])
  {
    if i < |pages| - 1 {
      var front := pages[..|pages|-1];
      PageOf(refs, limits[..|pages|-1], front, i);
      assert front[..i] == pages[..i];
    }
  }

  /** A run of more pages than there are records reaches an empty page exactly when every Seq is
      positive: a cursor of zero or less means "newest" again, so such a feed never ends. */
  lemma PagingEndsIff(refs: seq<ArtRef>, limits: seq<int>, pages: seq<Page>)
    requires IsPaging(refs, limits, pages) && |pages| > |Feed(refs)|
    ensures (exists i :: 0 <= i < |pages| && pages[i].events == []) <==> PositiveSeqs(Feed(refs))
  {
    if PositiveSeqs(Feed(refs)) {
      PagingTaken(refs, limits, pages);
      SubMultisetLength(Concat(pages), Feed(refs));
      if forall i :: 0 <= i < |pages| ==> pages[i].events != [] {
        NonEmptyPagesCount(pages);
      }
    } else {
      var e :| e in Feed(refs) && e.seqNo < 1;
      forall i | 0 <= i < |pages| ensures pages[i].events != [] {
        PageOf(refs, limits, pages, i);
        var c := Cursor(pages[..i]);
        AllRecordsCount(refs, c, e);
        assert e in multiset(AllRecords(refs, c));
      }
    }
  }

  // ---------------------------------------------------------------- a feed that never ends

  const ZERO_REF := ArtRef(1, 0, [Header(0, 1, true)])
  const ZERO_PAGE := Page([EventRec(0, 1, 1)], 0)

  lemma ZeroRecords(before: int)
    requires before <= 0
    ensures AllRecords([ZERO_REF], before) == [EventRec(0, 1, 1)]
  {
    assert [ZERO_REF][..0] == [];
    assert Admitted(ZERO_REF.log, before) == ZERO_REF.log;
  }

  /** A store with one event, stamped with the first millisecond of the epoch: the cursor of its page is
      zero, which asks for the newest page again, and every page of every paging is that one. */
  lemma OnlyZeroPage(limit: int, page: Page)
    requires limit > 0
    ensures IsPage([ZERO_REF], 0, limit, page) <==> page == ZERO_PAGE
  {
    ZeroRecords(0);
    var zero := EventRec(0, 1, 1);
    if IsPage([ZERO_REF], 0, limit, page) {
      SubMultisetLength(page.events, [zero]);
      assert page.events[0] in multiset(page.events);
      assert page.events == [zero];
    }
  }

  predicate AllZero(pages: seq<Page>) { forall i :: 0 <= i < |pages| ==> pages[i] == ZERO_PAGE }

  lemma AllZeroUnfold(pages: seq<Page>)
    requires pages != []
    ensures AllZero(pages) <==> AllZero(pages[..|pages|-1]) && pages[|pages|-1] == ZERO_PAGE
    ensures AllZero(pages) ==> Cursor(pages) == 0
  {
  }

  lemma PagingUnfold(refs: seq<ArtRef>, limits: seq<int>, pages: seq<Page>)
    requires |limits| == |pages| > 0 && limits[|pages|-1] > 0
    ensures var n := |pages| - 1;
      IsPaging(refs, limits, pages)
      <==> IsPaging(refs, limits[..n], pages[..n]) && IsPage(refs, Cursor(pages[..n]), limits[n], pages[n])
  {
  }

  lemma {:induction false} EndlessFeed(limits: seq<int>, pages: seq<Page>)
    requires |limits| == |pages| && forall i :: 0 <= i < |limits| ==> limits[i] > 0
    ensures IsPaging([ZERO_REF], limits, pages) <==> AllZero(pages)
  {
    if pages != [] {
      var n := |pages| - 1;
      var front := pages[..n];
      EndlessFeed(limits[..n], front);
      OnlyZeroPage(limits[n], pages[n]);
      if n > 0 {
        AllZeroUnfold(front);
      }
      AllZeroUnfold(pages);
      PagingUnfold([ZERO_REF], limits, pages);
      hide IsPaging, IsPage, AllZero;
    }
  }
}
