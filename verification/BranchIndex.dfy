/** The branch index of one artifact, rebuilt from its immutable event log and its rename aliases. */
module BranchIndex {

  type Name = string

  const MAIN: Name := "main"

  datatype EventKind = Plain | Fork(parentHash: string, source: Name, agent: string, rationale: string) | Merge(from: Name)

  datatype LogEvent = LogEvent(branch: Name, hash: string, timestamp: nat, kind: EventKind)

  /** What a branch's own events say of it; no alias and no merge enters. */
  datatype Facts = Facts(createdAt: nat, lastEventAt: nat, head: string, eventCount: nat,
                         forkedFrom: Name, forkedFromHash: string, originAgent: string, rationale: string)

  /** Where the branch was merged into, and when; the empty name when it was not. */
  datatype MergeMark = MergeMark(into: Name, at: nat)

  datatype Sticky = Sticky(archived: bool, archivedAt: nat, archiveReason: string, tags: seq<string>)

  datatype Info = Info(name: Name, facts: Facts, merged: MergeMark, sticky: Sticky)

  datatype Index = Index(branches: map<Name, Info>, renames: map<Name, Name>)

  const NO_FACTS := Facts(0, 0, "", 0, "", "", "", "")
  const NOT_MERGED := MergeMark("", 0)
  const NOT_STICKY := Sticky(false, 0, "", [])

  function Normal(branch: Name): Name { if branch == "" then MAIN else branch }

  /** The user-facing name of an event-log branch. */
  function Display(renames: map<Name, Name>, branch: Name): Name {
    if branch in renames then renames[branch] else branch
  }

  function FreshInfo(name: Name): Info { Info(name, NO_FACTS, NOT_MERGED, NOT_STICKY) }

  /** One event's effect on its own branch. */
  function Touch(f: Facts, e: LogEvent): Facts {
    var g := f.(createdAt := if f.createdAt == 0 then e.timestamp else f.createdAt,
                lastEventAt := e.timestamp, head := e.hash, eventCount := f.eventCount + 1);
    if e.kind.Fork? && f.forkedFromHash == ""
    then g.(forkedFromHash := e.kind.parentHash, forkedFrom := Normal(e.kind.source),
            originAgent := e.kind.agent, rationale := e.kind.rationale)
    else g
  }

  /** The event lands on its own branch. */
  function Landed(branches: map<Name, Info>, name: Name, e: LogEvent): map<Name, Info> {
    var info := if name in branches then branches[name] else FreshInfo(name);
    branches[name := info.(facts := Touch(info.facts, e))]
  }

  predicate Merges(e: LogEvent, key: Name) { e.kind == Merge(key) && key != "" }

  /** A merge event marks the branch it merges, looked up among the display names by the name it gives. */
  function Marked(branches: map<Name, Info>, name: Name, e: LogEvent): map<Name, Info> {
    if e.kind.Merge? && e.kind.from != "" && e.kind.from in branches
    then branches[e.kind.from := branches[e.kind.from].(merged := MergeMark(name, e.timestamp))]
    else branches
  }

  /** One turn of the rebuild. */
  function Apply(branches: map<Name, Info>, e: LogEvent, renames: map<Name, Name>): map<Name, Info> {
    var name := Display(renames, Normal(e.branch));
    Marked(Landed(branches, name, e), name, e)
  }

  function Build(log: seq<LogEvent>, renames: map<Name, Name>): map<Name, Info> {
    if log == [] then map[MAIN := FreshInfo(MAIN)]
    else Apply(Build(log[..|log|-1], renames), log[|log|-1], renames)
  }

  /** Archive marks and tags follow the display name. */
  function Carry(now: Sticky, before: Sticky): Sticky {
    var archived := if before.archived then before.(tags := now.tags) else now;
    if |before.tags| > 0 then archived.(tags := before.tags) else archived
  }

  function CarryAll(branches: map<Name, Info>, before: map<Name, Info>): map<Name, Info> {
    map k | k in branches ::
      if k in before then branches[k].(sticky := Carry(branches[k].sticky, before[k].sticky)) else branches[k]
  }

  function Rebuilt(log: seq<LogEvent>, before: Index): Index {
    Index(CarryAll(Build(log, before.renames), before.branches), before.renames)
  }

  method ApplyEvent(before: map<Name, Info>, e: LogEvent, renames: map<Name, Name>) returns (branches: map<Name, Info>)
    ensures branches == Apply(before, e, renames)
  {
    hide Touch, Display, Normal;
    branches := before;
    var name := Display(renames, Normal(e.branch));
    if name !in branches {
      branches := branches[name := FreshInfo(name)];
    }
    branches := branches[name := branches[name].(facts := Touch(branches[name].facts, e))];
    assert branches == Landed(before, name, e);
    if e.kind.Merge? && e.kind.from != "" && e.kind.from in branches {
      branches := branches[e.kind.from := branches[e.kind.from].(merged := MergeMark(name, e.timestamp))];
    }
  }

  method CarrySticky(built: map<Name, Info>, before: map<Name, Info>) returns (branches: map<Name, Info>)
    ensures branches == CarryAll(built, before)
  {
    hide Carry;
    branches := built;
    var todo := before.Keys;
    while todo != {}
      invariant todo <= before.Keys && branches.Keys == built.Keys
      invariant forall k :: k in built && k in before && k !in todo ==>
                  branches[k] == built[k].(sticky := Carry(built[k].sticky, before[k].sticky))
      invariant forall k :: k in built && (k !in before || k in todo) ==> branches[k] == built[k]
    {
      var k :| k in todo;
      if k in branches {
        branches := branches[k := branches[k].(sticky := Carry(branches[k].sticky, before[k].sticky))];
      }
      todo := todo - {k};
    }
  }

  /** The rebuild as it runs: over the log, then over the branches of the stored index. */
  method RefreshBranchIndex(log: seq<LogEvent>, stored: Index) returns (out: Index)
    ensures out == Rebuilt(log, stored)
  {
    hide Apply, CarryAll;
    var branches := map[MAIN := FreshInfo(MAIN)];
    for i := 0 to |log|
      invariant branches == Build(log[..i], stored.renames)
    {
      assert log[..i+1][..i] == log[..i];
      branches := ApplyEvent(branches, log[i], stored.renames);
    }
    assert log[..|log|] == log;
    branches := CarrySticky(branches, stored.branches);
    out := Index(branches, stored.renames);
  }

  // ---------------------------------------------------------------- what the rebuild means

  /** The event-log names of the artifact's branches; `main` always exists. */
  function Names(log: seq<LogEvent>): set<Name> {
    if log == [] then {MAIN} else Names(log[..|log|-1]) + {Normal(log[|log|-1].branch)}
  }

  /** No two branches show the same name. */
  ghost predicate Injective(renames: map<Name, Name>, names: set<Name>) {
    forall a, b :: a in names && b in names && Display(renames, a) == Display(renames, b) ==> a == b
  }

  function FactsOf(log: seq<LogEvent>, branch: Name): Facts {
    if log == [] then NO_FACTS
    else
      var e, before := log[|log|-1], FactsOf(log[..|log|-1], branch);
      if Normal(e.branch) == branch then Touch(before, e) else before
  }

  /** The last merge of `key` made once `branch` existed: its target branch in the log, and its time. */
  function LastMerge(log: seq<LogEvent>, branch: Name, key: Name): MergeMark {
    if log == [] then NOT_MERGED
    else
      var e := log[|log|-1];
      if Merges(e, key) && branch in Names(log) then MergeMark(Normal(e.branch), e.timestamp)
      else LastMerge(log[..|log|-1], branch, key)
  }

  predicate Real(m: MergeMark) { m != NOT_MERGED }

  /** A mark made by a merge names a branch of the log, and `main` is never empty. */
  lemma {:induction false} MergeTarget(log: seq<LogEvent>, branch: Name, key: Name)
    ensures Real(LastMerge(log, branch, key)) ==> LastMerge(log, branch, key).into in Names(log)
    ensures Real(LastMerge(log, branch, key)) <==> LastMerge(log, branch, key).into != ""
  {
    if log != [] {
      MergeTarget(log[..|log|-1], branch, key);
    }
  }

  function Shown(renames: map<Name, Name>, m: MergeMark): MergeMark {
    if m.into == "" then m else m.(into := Display(renames, m.into))
  }

  function InfoOf(log: seq<LogEvent>, renames: map<Name, Name>, branch: Name): Info {
    var name := Display(renames, branch);
    Info(name, FactsOf(log, branch), Shown(renames, LastMerge(log, branch, name)), NOT_STICKY)
  }

  /** The rebuild in closed form: one entry for each branch of the log, under its display name. */
  ghost predicate IsIndexOf(branches: map<Name, Info>, log: seq<LogEvent>, renames: map<Name, Name>) {
    && (forall n :: n in Names(log) ==> Display(renames, n) in branches && branches[Display(renames, n)] == InfoOf(log, renames, n))
    && (forall k :: k in branches ==> exists n :: n in Names(log) && Display(renames, n) == k)
  }

  lemma {:induction false} BuildIsIndex(log: seq<LogEvent>, renames: map<Name, Name>)
    requires MAIN !in renames
    requires Injective(renames, Names(log))
    ensures IsIndexOf(Build(log, renames), log, renames)
  {
    if log == [] {
      assert Build(log, renames) == map[MAIN := FreshInfo(MAIN)];
      assert MAIN in Names(log);
    } else {
      var rest, e := log[..|log|-1], log[|log|-1];
      assert Names(rest) <= Names(log);
      BuildIsIndex(rest, renames);
      ApplyIsIndex(log, renames);
    }
  }

  lemma MarkedEntry(branches: map<Name, Info>, name: Name, e: LogEvent, key: Name)
    requires key in branches
    ensures key in Marked(branches, name, e)
    ensures Marked(branches, name, e)[key]
         == if Merges(e, key) then branches[key].(merged := MergeMark(name, e.timestamp)) else branches[key]
  {
  }

  lemma LandedEntry(log: seq<LogEvent>, renames: map<Name, Name>, before: map<Name, Info>, n: Name)
    requires log != [] && n in Names(log)
    requires n != Normal(log[|log|-1].branch) ==> Display(renames, n) != Display(renames, Normal(log[|log|-1].branch))
    requires n in Names(log[..|log|-1]) ==> Display(renames, n) in before && before[Display(renames, n)] == InfoOf(log[..|log|-1], renames, n)
    requires n !in Names(log[..|log|-1]) ==> Display(renames, n) !in before
    ensures var name := Display(renames, Normal(log[|log|-1].branch));
            Display(renames, n) in Landed(before, name, log[|log|-1])
            && Landed(before, name, log[|log|-1])[Display(renames, n)]
               == InfoOf(log[..|log|-1], renames, n).(facts := FactsOf(log, n))
  {
    hide Touch, Display;
    FreshBranch(log[..|log|-1], n);
  }

  lemma InfoGrows(log: seq<LogEvent>, renames: map<Name, Name>, n: Name)
    requires log != [] && n in Names(log)
    ensures var e, key, was := log[|log|-1], Display(renames, n), InfoOf(log[..|log|-1], renames, n).(facts := FactsOf(log, n));
            InfoOf(log, renames, n)
            == if Merges(e, key) then was.(merged := MergeMark(Display(renames, Normal(e.branch)), e.timestamp)) else was
  {
    hide FactsOf, Display, Merges;
  }

  lemma EntryApplied(log: seq<LogEvent>, renames: map<Name, Name>, before: map<Name, Info>, n: Name)
    requires log != [] && n in Names(log)
    requires n != Normal(log[|log|-1].branch) ==> Display(renames, n) != Display(renames, Normal(log[|log|-1].branch))
    requires n in Names(log[..|log|-1]) ==> Display(renames, n) in before && before[Display(renames, n)] == InfoOf(log[..|log|-1], renames, n)
    requires n !in Names(log[..|log|-1]) ==> Display(renames, n) !in before
    ensures Display(renames, n) in Apply(before, log[|log|-1], renames)
    ensures Apply(before, log[|log|-1], renames)[Display(renames, n)] == InfoOf(log, renames, n)
  {
    hide Landed, Marked, InfoOf, Display, Normal, Merges, FactsOf, LastMerge, Names;
    var e := log[|log|-1];
    var name := Display(renames, Normal(e.branch));
    LandedEntry(log, renames, before, n);
    MarkedEntry(Landed(before, name, e), name, e, Display(renames, n));
    InfoGrows(log, renames, n);
  }

  lemma KeysApplied(before: map<Name, Info>, e: LogEvent, renames: map<Name, Name>)
    ensures Apply(before, e, renames).Keys == before.Keys + {Display(renames, Normal(e.branch))}
  {
  }

  lemma ApplyIsIndex(log: seq<LogEvent>, renames: map<Name, Name>)
    requires log != [] && Injective(renames, Names(log))
    requires IsIndexOf(Build(log[..|log|-1], renames), log[..|log|-1], renames)
    ensures IsIndexOf(Build(log, renames), log, renames)
  {
    hide Apply, InfoOf, Display, Normal, IsIndexOf;
    var before, after := Build(log[..|log|-1], renames), Build(log, renames);
    assert after == Apply(before, log[|log|-1], renames);
    hide Build;
    forall n | n in Names(log) ensures Display(renames, n) in after && after[Display(renames, n)] == InfoOf(log, renames, n) {
      KnownEntry(log, renames, before, n);
      EntryApplied(log, renames, before, n);
    }
    KeysIndexed(log, renames, before);
    IndexFromEntries(after, log, renames);
  }

  lemma KnownEntry(log: seq<LogEvent>, renames: map<Name, Name>, before: map<Name, Info>, n: Name)
    requires log != [] && n in Names(log) && Injective(renames, Names(log))
    requires IsIndexOf(before, log[..|log|-1], renames)
    ensures n != Normal(log[|log|-1].branch) ==> Display(renames, n) != Display(renames, Normal(log[|log|-1].branch))
    ensures n in Names(log[..|log|-1]) ==> Display(renames, n) in before && before[Display(renames, n)] == InfoOf(log[..|log|-1], renames, n)
    ensures n !in Names(log[..|log|-1]) ==> Display(renames, n) !in before
  {
    hide InfoOf, Display, Normal;
  }

  /** Every key shows a branch of the log. */
  ghost predicate KeysShown(branches: map<Name, Info>, log: seq<LogEvent>, renames: map<Name, Name>) {
    forall k :: k in branches ==> exists n :: n in Names(log) && Display(renames, n) == k
  }

  lemma KeysIndexed(log: seq<LogEvent>, renames: map<Name, Name>, before: map<Name, Info>)
    requires log != [] && IsIndexOf(before, log[..|log|-1], renames)
    ensures KeysShown(Apply(before, log[|log|-1], renames), log, renames)
  {
    hide Apply, InfoOf, Display, Normal;
    var e := log[|log|-1];
    KeysApplied(before, e, renames);
    forall k | k in Apply(before, e, renames) ensures exists n :: n in Names(log) && Display(renames, n) == k {
      if k in before {
        var n :| n in Names(log[..|log|-1]) && Display(renames, n) == k;
        assert n in Names(log);
      } else {
        assert Normal(e.branch) in Names(log);
      }
    }
  }

  lemma IndexFromEntries(branches: map<Name, Info>, log: seq<LogEvent>, renames: map<Name, Name>)
    requires KeysShown(branches, log, renames)
    requires forall n :: n in Names(log) ==> Display(renames, n) in branches && branches[Display(renames, n)] == InfoOf(log, renames, n)
    ensures IsIndexOf(branches, log, renames)
  {
    hide InfoOf, Display, Names;
  }

  /** A branch the log has not named yet has no facts and no merges. */
  lemma {:induction false} FreshBranch(log: seq<LogEvent>, branch: Name)
    ensures branch !in Names(log) ==> FactsOf(log, branch) == NO_FACTS && forall key :: LastMerge(log, branch, key) == NOT_MERGED
  {
    if log != [] {
      FreshBranch(log[..|log|-1], branch);
    }
  }

  // ---------------------------------------------------------------- what the facts and the marks are

  /** The branch's own events, in order. */
  function OwnEvents(log: seq<LogEvent>, branch: Name): seq<LogEvent> {
    if log == [] then []
    else
      var front, e := OwnEvents(log[..|log|-1], branch), log[|log|-1];
      if Normal(e.branch) == branch then front + [e] else front
  }

  predicate Dated(e: LogEvent) { e.timestamp != 0 }

  predicate Forks(e: LogEvent) { e.kind.Fork? && e.kind.parentHash != "" }

  /** The first event of `own` that `p` picks out. */
  ghost predicate FirstOf(own: seq<LogEvent>, p: LogEvent -> bool, i: nat) {
    i < |own| && p(own[i]) && forall j :: 0 <= j < i ==> !p(own[j])
  }

  predicate ForkedAt(f: Facts, e: LogEvent) {
    && e.kind.Fork? && f.forkedFromHash == e.kind.parentHash && f.forkedFrom == Normal(e.kind.source)
    && f.originAgent == e.kind.agent && f.rationale == e.kind.rationale
  }

  ghost predicate AreFacts(own: seq<LogEvent>, f: Facts) {
    && f.eventCount == |own|
    && (own == [] ==> f == NO_FACTS)
    && (own != [] ==> f.head == own[|own|-1].hash && f.lastEventAt == own[|own|-1].timestamp)
    && (f.createdAt == 0 <==> forall e :: e in own ==> !Dated(e))
    && (f.createdAt != 0 ==> exists i: nat :: FirstOf(own, Dated, i) && f.createdAt == own[i].timestamp)
    && (f.forkedFromHash == "" <==> forall e :: e in own ==> !Forks(e))
    && (f.forkedFromHash != "" ==> exists i: nat :: FirstOf(own, Forks, i) && ForkedAt(f, own[i]))
  }

  /** Head and last time are those of its last event, the count is theirs, it was created at the first
      event with a time, and it was forked where the first fork with a parent says. */
  lemma {:induction false} FactsAreOwn(log: seq<LogEvent>, branch: Name)
    ensures AreFacts(OwnEvents(log, branch), FactsOf(log, branch))
  {
    if log != [] {
      var front, e := log[..|log|-1], log[|log|-1];
      FactsAreOwn(front, branch);
      hide AreFacts, Touch;
      if Normal(e.branch) == branch {
        TouchedFacts(OwnEvents(front, branch), FactsOf(front, branch), e);
      }
    }
  }

  lemma FirstStays(own: seq<LogEvent>, p: LogEvent -> bool, i: nat, e: LogEvent)
    requires FirstOf(own, p, i)
    ensures FirstOf(own + [e], p, i) && (own + [e])[i] == own[i]
  {
  }

  lemma TouchedFacts(own: seq<LogEvent>, f: Facts, e: LogEvent)
    requires AreFacts(own, f)
    ensures AreFacts(own + [e], Touch(f, e))
  {
    hide Normal;
    var more, g := own + [e], Touch(f, e);
    assert more[|own|] == e;
    assert forall x :: x in more <==> x in own || x == e;
    if f.createdAt != 0 {
      var i: nat :| FirstOf(own, Dated, i) && f.createdAt == own[i].timestamp;
      FirstStays(own, Dated, i, e);
    } else if e.timestamp != 0 {
      assert FirstOf(more, Dated, |own|);
    }
    if f.forkedFromHash != "" {
      var i: nat :| FirstOf(own, Forks, i) && ForkedAt(f, own[i]);
      FirstStays(own, Forks, i, e);
    } else if Forks(e) {
      assert FirstOf(more, Forks, |own|);
    }
  }

  lemma {:induction false} BuiltNotSticky(log: seq<LogEvent>, renames: map<Name, Name>)
    ensures forall k :: k in Build(log, renames) ==> Build(log, renames)[k].sticky == NOT_STICKY
  {
    hide Touch, Display, Normal;
    if log != [] {
      BuiltNotSticky(log[..|log|-1], renames);
    }
  }

  /** A rebuild keeps the archive mark and the tags under each name, and gives none to a new one. */
  lemma MarksSurvive(log: seq<LogEvent>, stored: Index, k: Name)
    requires k in Rebuilt(log, stored).branches
    ensures var now := Rebuilt(log, stored).branches[k].sticky;
      && (k !in stored.branches ==> now == NOT_STICKY)
      && (k in stored.branches ==>
            var before := stored.branches[k].sticky;
            && now.tags == before.tags && now.archived == before.archived
            && (before.archived ==> now == before)
            && (!before.archived ==> now == NOT_STICKY.(tags := before.tags)))
  {
    BuiltNotSticky(log, stored.renames);
    hide Build;
  }
}
