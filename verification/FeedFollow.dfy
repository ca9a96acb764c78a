/** Following the cursor through one request after another, over an unchanged store. */
module FeedFollow {
  import opened FeedOrder
  import opened EventFeed
  import opened FeedPaging

  lemma {:induction false} AllRecordsPermuted(a: seq<ArtRef>, b: seq<ArtRef>, before: int)
    requires multiset(a) == multiset(b)
    ensures multiset(AllRecords(a, before)) == multiset(AllRecords(b, before))
    decreases |a|
  {
    SameMultisetSameLength(a, b);
    if a != [] {
      var r := a[|a|-1];
      assert r in multiset(b);
      var j :| 0 <= j < |b| && b[j] == r;
      assert b == b[..j] + ([r] + b[j+1..]);
      FrontCount(a);
      AllRecordsPermuted(a[..|a|-1], b[..j] + b[j+1..], before);
      AllRecordsSplit(b[..j], [r] + b[j+1..], before);
      AllRecordsSplit([r], b[j+1..], before);
      AllRecordsSplit(b[..j], b[j+1..], before);
      assert [r][..0] == [];
    }
  }

  /** The page a cursor selects does not depend on the order in which the artifacts are listed. */
  lemma PagePermuted(a: seq<ArtRef>, b: seq<ArtRef>, before: int, limit: int, page: Page)
    requires multiset(a) == multiset(b)
    ensures IsPage(a, before, limit, page) <==> IsPage(b, before, limit, page)
  {
    AllRecordsPermuted(a, b, before);
    SameMultisetSameLength(AllRecords(a, before), AllRecords(b, before));
  }

  lemma RefsOfAround(pre: seq<Artifact>, a: Artifact, post: seq<Artifact>)
    ensures multiset(RefsOf(pre + [a] + post)) == multiset(RefsOf(pre + post)) + multiset{RefOf(a)}
  {
    hide RefOf;
    assert RefsOf(pre + post) == RefsOf(pre) + RefsOf(post);
    assert RefsOf(pre + [a] + post) == RefsOf(pre) + [RefOf(a)] + RefsOf(post);
  }

  lemma RefsOfLast(a: seq<Artifact>)
    requires a != []
    ensures multiset(RefsOf(a)) == multiset(RefsOf(a[..|a|-1])) + multiset{RefOf(a[|a|-1])}
  {
    hide RefOf;
    assert RefsOf(a) == RefsOf(a[..|a|-1]) + [RefOf(a[|a|-1])];
  }

  lemma {:induction false} RefsOfPermuted(a: seq<Artifact>, b: seq<Artifact>)
    requires multiset(a) == multiset(b)
    ensures multiset(RefsOf(a)) == multiset(RefsOf(b))
    decreases |a|
  {
    SameMultisetSameLength(a, b);
    if a != [] {
      hide RefsOf;
      var front, last := a[..|a|-1], a[|a|-1];
      assert last in multiset(b);
      var pre, post := SplitAround(b, last);
      FrontCount(a);
      RefsOfPermuted(front, pre + post);
      RefsOfAround(pre, last, post);
      RefsOfLast(a);
    }
  }

  /** One request of a run of requests: the store may list its artifacts in another order each time. */
  method Request(listing: seq<Artifact>, ghost arts: seq<Artifact>, before: int, limit: int) returns (page: Page)
    requires multiset(listing) == multiset(arts) && limit > 0
    requires forall a :: a in arts ==> StoreKeeps(a)
    ensures IsPage(RefsOf(arts), before, limit, page)
  {
    hide StoreKeeps, IsPage, Readable;
    forall a | a in listing ensures StoreKeeps(a) {
      assert a in multiset(listing);
    }
    ghost var refs;
    page, refs := Backfill(listing, before, limit);
    RefsOfPermuted(listing, arts);
    PagePermuted(refs, RefsOf(arts), before, limit, page);
  }

  lemma PageNext(refs: seq<ArtRef>, limits: seq<int>, pages: seq<Page>, limit: int, page: Page)
    requires IsPaging(refs, limits, pages) && limit > 0 && IsPage(refs, Cursor(pages), limit, page)
    ensures IsPaging(refs, limits + [limit], pages + [page])
    ensures Cursor(pages + [page]) == page.nextBefore && Concat(pages + [page]) == Concat(pages) + page.events
  {
    assert (pages + [page])[..|pages|] == pages && (limits + [limit])[..|pages|] == limits;
  }

  lemma TakenLength(refs: seq<ArtRef>, limits: seq<int>, pages: seq<Page>)
    requires PositiveSeqs(Feed(refs)) && IsPaging(refs, limits, pages)
    ensures |Concat(pages)| <= |Feed(refs)|
  {
    PagingTaken(refs, limits, pages);
    SubMultisetLength(Concat(pages), Feed(refs));
  }

  /** Requests page after page, each under a limit of its own, until one is empty.  It ends, and what it
      has gathered is every event of the store, once, in feed order. */
  method FollowCursor(listings: nat -> seq<Artifact>, limits: nat -> int, ghost arts: seq<Artifact>) returns (events: seq<EventRec>)
    requires forall i: nat :: multiset(listings(i)) == multiset(arts)
    requires forall i: nat :: limits(i) > 0
    requires forall a :: a in arts ==> StoreKeeps(a)
    requires PositiveSeqs(Feed(RefsOf(arts)))
    ensures Sorted(events) && multiset(events) == multiset(Feed(RefsOf(arts)))
  {
    hide IsPage, IsPaging, StoreKeeps, PositiveSeqs, Feed, Sorted;
    ghost var refs, pages, used := RefsOf(arts), [], [];
    var n, before, more := 0, 0, true;
    events := [];
    NoPages(refs);
    while more
      invariant IsPaging(refs, used, pages) && Cursor(pages) == before && Concat(pages) == events
      invariant !more ==> pages != [] && pages[|pages|-1].events == []
      decreases |Feed(refs)| - |events|, more
    {
      TakenLength(refs, used, pages);
      var page := Request(listings(n), arts, before, limits(n));
      PageNext(refs, used, pages, limits(n), page);
      pages, used := pages + [page], used + [limits(n)];
      TakenLength(refs, used, pages);
      events := events + page.events;
      n, before, more := n + 1, page.nextBefore, page.events != [];
    }
    PagesAreTheFeed(refs, used, pages);
  }

  lemma NoPages(refs: seq<ArtRef>)
    ensures IsPaging(refs, [], []) && Cursor([]) == 0 && Concat([]) == []
  {
  }
}
