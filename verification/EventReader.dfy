/** The metadata-only reader behind the event feed: it walks one append-only log
    from its end and stops once it holds enough headers. */
module EventReader {

  /** One event header.  `millis` is its timestamp truncated to milliseconds. */
  datatype Header = Header(millis: int, eventId: int, onMain: bool)

  /** A cursor of zero or less means "start from the newest". */
  predicate Before(h: Header, before: int) {
    before <= 0 || h.millis < before
  }

  /** The headers a cursor admits, in append order. */
  function Admitted(log: seq<Header>, before: int): seq<Header> {
    if log == [] then []
    else if Before(log[0], before) then [log[0]] + Admitted(log[1..], before)
    else Admitted(log[1..], before)
  }

  predicate Chronological(log: seq<Header>) {
    forall i, j :: 0 <= i < j < |log| ==> log[i].millis <= log[j].millis
  }

  /** First index of the same-millisecond run that ends at `k`. */
  function GroupStart(f: seq<Header>, k: nat): (g: nat)
    requires k < |f|
    ensures g <= k
    ensures forall i :: g <= i <= k ==> f[i].millis == f[k].millis
    ensures g == 0 || f[g-1].millis != f[k].millis
    decreases k
  {
    if k > 0 && f[k-1].millis == f[k].millis then GroupStart(f, k-1) else k
  }

  /** What the reader returns: the tail of the admitted headers, never splitting the run at the cut. */
  function RecentHeaders(log: seq<Header>, before: int, limit: int): seq<Header> {
    var f := Admitted(log, before);
    if limit <= 0 then []
    else if |f| <= limit then f
    else f[GroupStart(f, |f| - limit)..]
  }

  lemma {:induction false} AdmittedConcat(a: seq<Header>, b: seq<Header>, before: int)
    ensures Admitted(a + b, before) == Admitted(a, before) + Admitted(b, before)
  {
    if a == [] {
      assert a + b == b;
    } else {
      assert (a + b)[1..] == a[1..] + b;
      AdmittedConcat(a[1..], b, before);
    }
  }

  lemma {:induction false} AdmittedAll(log: seq<Header>)
    ensures Admitted(log, 0) == log
  {
    if log != [] {
      AdmittedAll(log[1..]);
    }
  }

  /** The backward scan over the log. */
  method ReadRecentEventHeaders(log: seq<Header>, before: int, limit: int) returns (recent: seq<Header>)
    ensures recent == RecentHeaders(log, before, limit)
  {
    if limit <= 0 {
      return [];
    }
    recent := [];
    var boundary := 0;
    var end := |log|;
    assert Admitted(log[end..], before) == [];
    hide Admitted, GroupStart, OneGroup;
    while end > 0
      invariant 0 <= end <= |log|
      invariant recent == Admitted(log[end..], before)
      invariant |recent| >= limit ==> boundary == recent[|recent| - limit].millis
      invariant |recent| >= limit ==> OneGroup(recent, |recent| - limit)
    {
      var event := log[end-1];
      AdmittedStep(log, end - 1, before);
      if !(before > 0 && event.millis >= before) {
        if |recent| >= limit && event.millis != boundary {
          CutAt(Admitted(log, before), Admitted(log[..end-1], before) + [event], recent, limit);
          return;
        }
        GroupOnward(recent, event, limit, boundary);
        recent := [event] + recent;
        if |recent| == limit {
          boundary := event.millis;
        }
      }
      end := end - 1;
    }
    assert log[0..] == log;
  }

  /** Indices 0 to `k` share one millisecond. */
  predicate OneGroup(f: seq<Header>, k: int)
    requires k < |f|
  {
    forall i :: 0 <= i <= k ==> f[i].millis == f[k].millis
  }

  lemma GroupOnward(recent: seq<Header>, event: Header, limit: int, boundary: int)
    requires limit >= 1
    requires |recent| >= limit ==> boundary == recent[|recent| - limit].millis && OneGroup(recent, |recent| - limit) && event.millis == boundary
    ensures |recent| + 1 >= limit ==> OneGroup([event] + recent, |recent| + 1 - limit)
  {
  }

  lemma AdmittedStep(log: seq<Header>, i: nat, before: int)
    requires i < |log|
    ensures Admitted(log[i..], before) == (if Before(log[i], before) then [log[i]] else []) + Admitted(log[i+1..], before)
    ensures Before(log[i], before) ==>
              Admitted(log, before) == Admitted(log[..i], before) + [log[i]] + Admitted(log[i+1..], before)
  {
    assert log[i..][1..] == log[i+1..];
    assert log == log[..i] + log[i..];
    AdmittedConcat(log[..i], log[i..], before);
  }

  lemma CutAt(f: seq<Header>, older: seq<Header>, recent: seq<Header>, limit: int)
    requires f == older + recent
    requires 1 <= limit <= |recent| && older != []
    requires OneGroup(recent, |recent| - limit)
    requires older[|older|-1].millis != recent[|recent| - limit].millis
    ensures |f| > limit && recent == f[GroupStart(f, |f| - limit)..]
  {
    GroupStartAt(f, |f| - limit, |older|);
  }

  lemma GroupStartAt(f: seq<Header>, k: nat, g: nat)
    requires g <= k < |f|
    requires forall i :: g <= i <= k ==> f[i].millis == f[k].millis
    requires g == 0 || f[g-1].millis != f[k].millis
    ensures GroupStart(f, k) == g
  {
  }

  /** On any log the reader returns no more than it must: what exceeds the limit shares the millisecond of
      the header at which the limit falls. */
  lemma ReadIsTight(log: seq<Header>, before: int, limit: int) returns (g: nat)
    requires limit >= 1
    ensures g <= |Admitted(log, before)| && RecentHeaders(log, before, limit) == Admitted(log, before)[g..]
    ensures g == 0 || g + limit <= |Admitted(log, before)|
    ensures forall i :: g <= i <= |Admitted(log, before)| - limit ==>
              Admitted(log, before)[i].millis == Admitted(log, before)[|Admitted(log, before)| - limit].millis
    ensures g > 0 ==> Admitted(log, before)[g-1].millis != Admitted(log, before)[g].millis
  {
    hide Admitted;
    var f := Admitted(log, before);
    g := if |f| > limit then GroupStart(f, |f| - limit) else 0;
  }

  /** What the merge needs of a reader: enough headers, and everything it leaves out is strictly
      older than everything it returns. */
  ghost predicate NewestComplete(all: seq<Header>, got: seq<Header>, limit: int) {
    && multiset(got) <= multiset(all)
    && (forall h :: multiset(got)[h] < multiset(all)[h] ==>
          |got| >= limit && forall g :: g in got ==> g.millis > h.millis)
  }

  ghost predicate SoundReader(log: seq<Header>) {
    forall before: int, limit: int {:trigger RecentHeaders(log, before, limit)} :: limit >= 1 ==>
      NewestComplete(Admitted(log, before), RecentHeaders(log, before, limit), limit)
  }

  lemma {:induction false} AdmittedFrom(log: seq<Header>, before: int, h: Header)
    requires h in Admitted(log, before)
    ensures h in log
  {
    if h != log[0] {
      AdmittedFrom(log[1..], before, h);
    }
  }

  lemma {:induction false} AdmittedBefore(log: seq<Header>, before: int, h: Header)
    requires h in Admitted(log, before)
    ensures Before(h, before)
  {
    if !Before(log[0], before) || h != log[0] {
      AdmittedBefore(log[1..], before, h);
    }
  }

  lemma {:induction false} AdmittedChronological(log: seq<Header>, before: int)
    requires Chronological(log)
    ensures Chronological(Admitted(log, before))
  {
    if log != [] {
      var rest := Admitted(log[1..], before);
      AdmittedChronological(log[1..], before);
      forall i | 0 <= i < |rest| ensures log[0].millis <= rest[i].millis {
        AdmittedFrom(log[1..], before, rest[i]);
      }
    }
  }

  /** On a chronological log the reader keeps a tail of the admitted headers, cut between milliseconds. */
  lemma RecentIsTail(log: seq<Header>, before: int, limit: int) returns (g: nat)
    requires Chronological(log) && limit >= 1
    ensures Chronological(Admitted(log, before))
    ensures g <= |Admitted(log, before)| && RecentHeaders(log, before, limit) == Admitted(log, before)[g..]
    ensures g > 0 ==> g + limit <= |Admitted(log, before)|
    ensures g > 0 ==> Admitted(log, before)[g-1].millis < Admitted(log, before)[g].millis
  {
    var f := Admitted(log, before);
    AdmittedChronological(log, before);
    g := if |f| > limit then GroupStart(f, |f| - limit) else 0;
  }

  lemma ChronologicalRead(log: seq<Header>, before: int, limit: int)
    requires Chronological(log) && limit >= 1
    ensures NewestComplete(Admitted(log, before), RecentHeaders(log, before, limit), limit)
  {
    var g := RecentIsTail(log, before, limit);
    if g > 0 {
      SuffixComplete(Admitted(log, before), g, limit);
    }
  }

  lemma SuffixComplete(f: seq<Header>, g: nat, limit: int)
    requires Chronological(f) && 0 < g < |f| && g + limit <= |f|
    requires f[g-1].millis < f[g].millis
    ensures NewestComplete(f, f[g..], limit)
  {
    assert f == f[..g] + f[g..];
    assert multiset(f) == multiset(f[..g]) + multiset(f[g..]);
    forall h | multiset(f[g..])[h] < multiset(f)[h]
      ensures forall r :: r in f[g..] ==> r.millis > h.millis
    {
      assert h in f[..g];
      var i :| 0 <= i < g && f[i] == h;
      assert f[i].millis <= f[g-1].millis < f[g].millis;
    }
  }

  /** The scan stops on position, not on time, so it returns the newest headers for every cursor and
      limit exactly when the log was appended in timestamp order. */
  lemma SoundReaderIffChronological(log: seq<Header>)
    ensures SoundReader(log) <==> Chronological(log)
  {
    if Chronological(log) {
      forall before: int, limit: int | limit >= 1
        ensures NewestComplete(Admitted(log, before), RecentHeaders(log, before, limit), limit)
      {
        ChronologicalRead(log, before, limit);
      }
    } else {
      var i := FirstDescent(log);
      OutOfOrderLoss(log, i);
    }
  }

  lemma {:induction false} FirstDescent(log: seq<Header>) returns (i: nat)
    requires !Chronological(log)
    ensures i + 1 < |log| && log[i].millis > log[i+1].millis
  {
    var front := log[..|log|-1];
    if !Chronological(front) {
      i := FirstDescent(front);
    } else {
      i := |log| - 2;
      assert exists k :: 0 <= k < |log|-1 && log[k].millis > log[|log|-1].millis;
      var k :| 0 <= k < |log|-1 && log[k].millis > log[|log|-1].millis;
      if k < i {
        assert front[k].millis <= front[i].millis;
      }
    }
  }

  lemma SuffixMisses(f: seq<Header>, i: nat)
    requires i < |f|
    ensures multiset(f[i+1..])[f[i]] < multiset(f)[f[i]]
  {
    assert f == f[..i] + f[i..];
    assert f[i..] == [f[i]] + f[i+1..];
    assert multiset(f[i..]) == multiset{f[i]} + multiset(f[i+1..]);
    assert multiset(f) == multiset(f[..i]) + multiset(f[i..]);
  }

  lemma CutBetween(log: seq<Header>, g: nat)
    requires 0 < g < |log| && log[g-1].millis != log[g].millis
    ensures RecentHeaders(log, 0, |log| - g) == log[g..]
  {
    AdmittedAll(log);
    hide Admitted;
    GroupStartAt(log, g, g);
    hide GroupStart;
    assert |log| - (|log| - g) == g;
  }

  /** An event appended just before an older one is cut off by the limit that ends right after it. */
  lemma OutOfOrderLoss(log: seq<Header>, i: nat)
    requires i + 1 < |log| && log[i].millis > log[i+1].millis
    ensures RecentHeaders(log, 0, |log| - (i + 1)) == log[i+1..]
    ensures !NewestComplete(Admitted(log, 0), RecentHeaders(log, 0, |log| - (i + 1)), |log| - (i + 1))
  {
    hide NewestComplete, Admitted, RecentHeaders;
    AdmittedAll(log);
    CutBetween(log, i + 1);
    SuffixMisses(log, i);
    var got := log[i+1..];
    assert got[0] == log[i+1];
    OlderReturned(log, got, |log| - (i + 1), log[i], log[i+1]);
  }

  lemma OlderReturned(all: seq<Header>, got: seq<Header>, limit: int, missed: Header, older: Header)
    requires multiset(got)[missed] < multiset(all)[missed]
    requires older in got && missed.millis > older.millis
    ensures !NewestComplete(all, got, limit)
  {
  }
}
