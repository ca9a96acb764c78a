/** What the event feed loses when a log is not in time order. */
module FeedLoss {
  import opened FeedOrder
  import opened EventReader
  import opened EventFeed
  import opened FeedPaging

  // ---------------------------------------------------------------- no later page makes up for a loss

  /** Pages as the feed serves them over any logs, each from the cursor left by the one before it. */
  ghost predicate Served(refs: seq<ArtRef>, limits: seq<int>, pages: seq<Page>)
    decreases |pages|
  {
    |limits| == |pages| && (pages != [] ==>
      var n := |pages| - 1;
      limits[n] > 0 && Served(refs, limits[..n], pages[..n]) && Drawn(refs, Cursor(pages[..n]), limits[n], pages[n]))
  }

  /** A page stays between its cursor and the one it leaves. */
  lemma PageBetween(refs: seq<ArtRef>, c: int, limit: int, page: Page, e: EventRec)
    requires Drawn(refs, c, limit, page) && e in page.events
    ensures page.nextBefore <= e.seqNo && (c > 0 ==> e.seqNo < c) && multiset(Feed(refs))[e] > 0
  {
    hide AllRecords, Feed;
    assert e in multiset(page.events);
    AllRecordsCount(refs, c, e);
    var i :| 0 <= i < |page.events| && page.events[i] == e;
    assert i < |page.events| - 1 ==> Ahead(e, page.events[|page.events|-1]);
  }

  lemma CursorMoves(refs: seq<ArtRef>, c: int, limit: int, page: Page)
    requires PositiveSeqs(Feed(refs)) && Drawn(refs, c, limit, page)
    ensures page.events == [] ==> page.nextBefore == c
    ensures page.events != [] ==> 0 < page.nextBefore && (c > 0 ==> page.nextBefore < c)
  {
    if page.events == [] {
      return;
    }
    PageBetween(refs, c, limit, page, page.events[|page.events|-1]);
    assert page.events[|page.events|-1] in multiset(Feed(refs));
  }

  /** Once the cursor is at or below an event, no later page holds it: what was missed then is lost. */
  lemma {:induction false} LostForGood(refs: seq<ArtRef>, limits: seq<int>, pages: seq<Page>, n: nat, e: EventRec)
    requires PositiveSeqs(Feed(refs)) && Served(refs, limits, pages) && n <= |pages|
    requires 0 < Cursor(pages[..n]) <= e.seqNo
    ensures multiset(Concat(pages))[e] == multiset(Concat(pages[..n]))[e] && 0 < Cursor(pages) <= e.seqNo
  {
    hide Feed, Drawn, PositiveSeqs;
    if n == |pages| {
      assert pages[..n] == pages;
    } else {
      var front, page := pages[..|pages|-1], pages[|pages|-1];
      assert front[..n] == pages[..n];
      LostForGood(refs, limits[..|pages|-1], front, n, e);
      CursorMoves(refs, Cursor(front), limits[|pages|-1], page);
      if e in page.events {
        PageBetween(refs, Cursor(front), limits[|pages|-1], page, e);
      }
    }
  }

  /** Before the cursor passes an event no page holds it. */
  lemma {:induction false} NotYetServed(refs: seq<ArtRef>, limits: seq<int>, pages: seq<Page>, e: EventRec)
    requires PositiveSeqs(Feed(refs)) && Served(refs, limits, pages)
    requires Cursor(pages) > 0 ==> e.seqNo < Cursor(pages)
    ensures e !in Concat(pages)
  {
    if pages != [] {
      var front, page := pages[..|pages|-1], pages[|pages|-1];
      CursorMoves(refs, Cursor(front), limits[|pages|-1], page);
      NotYetServed(refs, limits[..|pages|-1], front, e);
      if e in page.events {
        PageBetween(refs, Cursor(front), limits[|pages|-1], page, e);
      }
    }
  }

  lemma {:induction false} ServedPage(refs: seq<ArtRef>, limits: seq<int>, pages: seq<Page>, i: nat)
    requires Served(refs, limits, pages) && i < |pages|
    ensures |limits| == |pages| && limits[i] > 0
    ensures Served(refs, limits[..i], pages[..i]) && Served(refs, limits[..i+1], pages[..i+1])
    ensures Drawn(refs, Cursor(pages[..i]), limits[i], pages[i])
  {
    hide Drawn, Cursor;
    var n := |pages| - 1;
    if i < n {
      ServedPage(refs, limits[..n], pages[..n], i);
      assert pages[..n][..i] == pages[..i] && limits[..n][..i] == limits[..i];
      assert pages[..n][..i+1] == pages[..i+1] && limits[..n][..i+1] == limits[..i+1];
    } else {
      assert pages[..i+1] == pages && limits[..i+1] == limits;
    }
  }

  /** A page that is not the one its cursor selects lacks an event at or above the cursor it leaves. */
  lemma WrongPageLacks(refs: seq<ArtRef>, c: int, limit: int, page: Page) returns (e: EventRec)
    requires Drawn(refs, c, limit, page) && !IsPage(refs, c, limit, page)
    ensures page.events != [] && e.seqNo >= page.nextBefore && multiset(page.events)[e] < multiset(AllRecords(refs, c))[e]
  {
    e :| multiset(page.events)[e] != if e.seqNo >= page.nextBefore then multiset(AllRecords(refs, c))[e] else 0;
    if e.seqNo < page.nextBefore {
      assert e in multiset(page.events);
      PageBetween(refs, c, limit, page, e);
    }
  }

  lemma WrongPageLoses(refs: seq<ArtRef>, limits: seq<int>, pages: seq<Page>, i: nat)
    requires PositiveSeqs(Feed(refs)) && Served(refs, limits, pages) && i < |pages|
    requires !IsPage(refs, Cursor(pages[..i]), limits[i], pages[i])
    ensures multiset(Concat(pages)) != multiset(Feed(refs))
  {
    hide Drawn, IsPage, AllRecords, Feed, PositiveSeqs, Served;
    ServedPage(refs, limits, pages, i);
    var front, page := pages[..i], pages[i];
    var e := WrongPageLacks(refs, Cursor(front), limits[i], page);
    AllRecordsCount(refs, Cursor(front), e);
    NotYetServed(refs, limits[..i], front, e);
    CursorMoves(refs, Cursor(front), limits[i], page);
    assert pages[..i+1][..i] == front;
    assert multiset(Concat(pages[..i+1]))[e] == multiset(page.events)[e];
    LostForGood(refs, limits, pages, i + 1, e);
  }

  lemma {:induction false} RightPagesPage(refs: seq<ArtRef>, limits: seq<int>, pages: seq<Page>)
    requires Served(refs, limits, pages)
    requires forall i :: 0 <= i < |pages| ==> IsPage(refs, Cursor(pages[..i]), limits[i], pages[i])
    ensures IsPaging(refs, limits, pages)
  {
    hide IsPage, Drawn;
    if pages != [] {
      var n := |pages| - 1;
      forall i | 0 <= i < n ensures IsPage(refs, Cursor(pages[..n][..i]), limits[..n][i], pages[..n][i]) {
        assert pages[..n][..i] == pages[..i];
      }
      RightPagesPage(refs, limits[..n], pages[..n]);
    }
  }

  /** Over any logs, pages served until an empty one add up to the whole feed exactly when each of them is
      the page its cursor selects: no later page makes up for an earlier one. */
  lemma PagesCompleteIff(refs: seq<ArtRef>, limits: seq<int>, pages: seq<Page>)
    requires PositiveSeqs(Feed(refs)) && Served(refs, limits, pages)
    requires pages != [] && pages[|pages|-1].events == []
    ensures multiset(Concat(pages)) == multiset(Feed(refs))
      <==> forall i :: 0 <= i < |pages| ==> IsPage(refs, Cursor(pages[..i]), limits[i], pages[i])
  {
    if forall i :: 0 <= i < |pages| ==> IsPage(refs, Cursor(pages[..i]), limits[i], pages[i]) {
      RightPagesPage(refs, limits, pages);
      PagesAreTheFeed(refs, limits, pages);
    } else {
      var i: nat :| i < |pages| && !IsPage(refs, Cursor(pages[..i]), limits[i], pages[i]);
      WrongPageLoses(refs, limits, pages, i);
    }
  }

  // ---------------------------------------------------------------- when a log is out of order

  lemma DistinctPart(part: seq<EventRec>, whole: seq<EventRec>)
    requires DistinctSeqs(whole) && multiset(part) <= multiset(whole)
    ensures DistinctSeqs(part)
  {
    forall e: EventRec ensures multiset(part)[e] <= 1 {
      assert multiset(whole)[e] <= 1;
    }
    forall a | a in part ensures a in whole {
      assert a in multiset(part);
    }
  }

  lemma AdmittedPart(refs: seq<ArtRef>, before: int)
    ensures multiset(AllRecords(refs, before)) <= multiset(Feed(refs))
  {
    forall e: EventRec ensures multiset(AllRecords(refs, before))[e] <= multiset(Feed(refs))[e] {
      AllRecordsCount(refs, before, e);
    }
  }

  lemma {:induction false} LogPart(refs: seq<ArtRef>, q: nat, before: int)
    requires q < |refs|
    ensures multiset(LogRecords(refs[q], before)) <= multiset(AllRecords(refs, before))
  {
    if q < |refs| - 1 {
      LogPart(refs[..|refs|-1], q, before);
    }
  }

  lemma {:induction false} ReadsPart(refs: seq<ArtRef>, before: int, limit: int)
    requires limit >= 1
    ensures multiset(BoundedReads(refs, before, limit)) <= multiset(AllRecords(refs, before))
  {
    if refs != [] {
      ReadsPart(refs[..|refs|-1], before, limit);
      ReadIsPart(refs[|refs|-1], before, limit);
    }
  }

  /** What one bounded read misses, the reads together miss. */
  lemma {:induction false} ReadsMiss(refs: seq<ArtRef>, q: nat, before: int, limit: int, e: EventRec)
    requires limit >= 1 && q < |refs|
    requires multiset(LogRead(refs[q], before, limit))[e] < multiset(LogRecords(refs[q], before))[e]
    ensures multiset(BoundedReads(refs, before, limit))[e] < multiset(AllRecords(refs, before))[e]
  {
    var front := refs[..|refs|-1];
    if q < |refs| - 1 {
      ReadsMiss(front, q, before, limit, e);
      ReadIsPart(refs[|refs|-1], before, limit);
    } else {
      ReadsPart(front, before, limit);
    }
  }

  /** An event with an older one right behind it is not in the read of one event from just above it. */
  lemma LastReadMisses(r: ArtRef, i: nat)
    requires i + 1 < |r.log| && r.log[i].millis > r.log[i+1].millis && r.log[i].millis >= 0
    requires DistinctSeqs(LogRecords(r, r.log[i].millis + 1))
    ensures var before, e := r.log[i].millis + 1, RecordFor(r.artifact, r.log[i]);
      multiset(LogRead(r, before, 1))[e] < multiset(LogRecords(r, before))[e]
  {
    var before, e := r.log[i].millis + 1, RecordFor(r.artifact, r.log[i]);
    var f, p := Admitted(r.log, before), |Admitted(r.log[..i], before)|;
    AdmittedStep(r.log, i, before);
    AdmittedStep(r.log, i + 1, before);
    assert p < |f| - 1 && f[p] == r.log[i];
    ReadFromLater(r, before, p);
  }

  lemma ReadFromLater(r: ArtRef, before: int, p: nat)
    requires p < |Admitted(r.log, before)| - 1 && DistinctSeqs(LogRecords(r, before))
    ensures var e := LogRecords(r, before)[p]; multiset(LogRead(r, before, 1))[e] < multiset(LogRecords(r, before))[e]
  {
    var f, all := Admitted(r.log, before), LogRecords(r, before);
    var g := GroupStart(f, |f| - 1);
    hide DistinctSeqs, Admitted;
    NoTies(all, all, p, |f| - 1);
    assert p < g;
    assert LogRead(r, before, 1) == all[g..];
    SuffixLacks(all, p, g);
  }

  lemma SuffixLacks(all: seq<EventRec>, p: nat, g: nat)
    requires DistinctSeqs(all) && p < g <= |all|
    ensures multiset(all[g..])[all[p]] < multiset(all)[all[p]]
  {
    SplitCount(all, g);
    assert all[..g][p] == all[p];
    assert all[p] in multiset(all[..g]);
  }

  /** In a store whose events all have their own millisecond, a log that is out of time order has a request
      whose page is wrong: an event below the request's cursor is missing although it is at or above the
      next one.  With `MaterializePage` this makes time order the exact condition for such a store. */
  method LoseEvent(refs: seq<ArtRef>) returns (before: int, page: Page, ghost e: EventRec)
    requires PositiveSeqs(Feed(refs)) && DistinctSeqs(Feed(refs))
    requires exists r :: r in refs && !Chronological(r.log)
    ensures Drawn(refs, before, 1, page) && !IsPage(refs, before, 1, page)
    ensures e in Feed(refs) && e !in page.events && page.nextBefore <= e.seqNo < before
  {
    hide Drawn, IsPage, Feed, DistinctSeqs;
    var q :| 0 <= q < |refs| && !Chronological(refs[q].log);
    var log := refs[q].log;
    ghost var d := FirstDescent(log);
    var i :| 0 <= i < |log| - 1 && log[i].millis > log[i+1].millis;
    before := log[i].millis + 1;
    e := RecordFor(refs[q].artifact, log[i]);
    InFeed(refs, q, i);
    AtRisk(refs, q, i, before, e);
    page := MaterializePage(refs, before, 1);
    Missed(refs, before, page, e);
  }

  lemma InFeed(refs: seq<ArtRef>, q: nat, i: nat)
    requires q < |refs| && i < |refs[q].log|
    ensures RecordFor(refs[q].artifact, refs[q].log[i]) in Feed(refs)
  {
    var r, e := refs[q], RecordFor(refs[q].artifact, refs[q].log[i]);
    AdmittedAll(r.log);
    assert LogRecords(r, 0)[i] == e;
    assert e in multiset(LogRecords(r, 0));
    LogPart(refs, q, 0);
    assert e in multiset(Feed(refs));
  }

  lemma AtRisk(refs: seq<ArtRef>, q: nat, i: nat, before: int, e: EventRec)
    requires DistinctSeqs(Feed(refs)) && q < |refs|
    requires i + 1 < |refs[q].log| && refs[q].log[i].millis > refs[q].log[i+1].millis && refs[q].log[i].millis >= 0
    requires before == refs[q].log[i].millis + 1 && e == RecordFor(refs[q].artifact, refs[q].log[i])
    ensures DistinctSeqs(AllRecords(refs, before))
    ensures multiset(BoundedReads(refs, before, 1))[e] < multiset(AllRecords(refs, before))[e]
  {
    hide *;
    DistinctLogs(refs, q, before);
    LastReadMisses(refs[q], i);
    ReadsMiss(refs, q, before, 1, e);
  }

  lemma DistinctLogs(refs: seq<ArtRef>, q: nat, before: int)
    requires DistinctSeqs(Feed(refs)) && q < |refs|
    ensures DistinctSeqs(AllRecords(refs, before)) && DistinctSeqs(LogRecords(refs[q], before))
  {
    hide DistinctSeqs, AllRecords, LogRecords, Feed;
    AdmittedPart(refs, before);
    DistinctPart(AllRecords(refs, before), Feed(refs));
    LogPart(refs, q, before);
    DistinctPart(LogRecords(refs[q], before), AllRecords(refs, before));
  }

  lemma Missed(refs: seq<ArtRef>, before: int, page: Page, e: EventRec)
    requires before > 0 && before == e.seqNo + 1 && DistinctSeqs(AllRecords(refs, before)) && Drawn(refs, before, 1, page)
    requires multiset(page.events) <= multiset(BoundedReads(refs, before, 1))
    requires multiset(BoundedReads(refs, before, 1))[e] < multiset(AllRecords(refs, before))[e]
    ensures !IsPage(refs, before, 1, page) && e !in page.events && page.nextBefore <= e.seqNo < before
  {
    hide AllRecords, BoundedReads;
    assert multiset(AllRecords(refs, before))[e] <= 1;
    assert multiset(page.events)[e] == 0;
    assert AllRecords(refs, before) != [];
    PageBetween(refs, before, 1, page, page.events[|page.events|-1]);
  }
}
