/** Renaming a branch: an alias and two map edits that must agree with a rebuild from the log. */
module BranchRename {
  import opened BranchIndex

  datatype Result = Renamed | MainRefused | NoSuchBranch | NameTaken

  /** The aliases are for branches of the log, never for `main`, never to themselves, and no two branches
      show one name. */
  ghost predicate Good(log: seq<LogEvent>, renames: map<Name, Name>) {
    && MAIN !in renames
    && (forall n :: n in renames ==> n in Names(log) && renames[n] != n && renames[n] != "")
    && Injective(renames, Names(log))
  }

  /** The event-log name behind a display name. */
  ghost predicate IsOrigin(log: seq<LogEvent>, renames: map<Name, Name>, shown: Name, origin: Name) {
    origin in Names(log) && Display(renames, origin) == shown
  }

  function Realiased(renames: map<Name, Name>, origin: Name, newName: Name): map<Name, Name> {
    if origin == newName then renames - {origin} else renames[origin := newName]
  }

  function Moved(branches: map<Name, Info>, oldName: Name, newName: Name): map<Name, Info>
    requires oldName in branches
  {
    (branches - {oldName})[newName := branches[oldName].(name := newName)]
  }

  predicate Found(renames: map<Name, Name>, oldName: Name, origin: Name) {
    || (origin in renames && renames[origin] == oldName)
    || (origin == oldName && forall n :: n in renames ==> renames[n] != oldName)
  }

  /** Searches the aliases in whatever order the map yields them. */
  method FindOrigin(renames: map<Name, Name>, oldName: Name) returns (origin: Name)
    ensures Found(renames, oldName, origin)
  {
    var todo := renames.Keys;
    while todo != {}
      invariant todo <= renames.Keys
      invariant forall n :: n in renames && n !in todo ==> renames[n] != oldName
    {
      var n :| n in todo;
      if renames[n] == oldName {
        return n;
      }
      todo := todo - {n};
    }
    origin := oldName;
  }

  /** Whatever the order, the search gives the one log name that shows `oldName`. */
  lemma OriginIsUnique(log: seq<LogEvent>, renames: map<Name, Name>, oldName: Name, origin: Name)
    requires Good(log, renames)
    requires exists n :: IsOrigin(log, renames, oldName, n)
    requires Found(renames, oldName, origin)
    ensures forall n :: IsOrigin(log, renames, oldName, n) <==> n == origin
  {
    var n :| IsOrigin(log, renames, oldName, n);
    assert IsOrigin(log, renames, oldName, origin);
  }

  /** The guards of the command: a branch other than `main`, to a name no branch shows. */
  ghost predicate Renamable(log: seq<LogEvent>, renames: map<Name, Name>, origin: Name, newName: Name) {
    && Good(log, renames) && origin in Names(log) && origin != MAIN && newName != ""
    && forall n :: n in Names(log) ==> Display(renames, n) != newName
  }

  /** After a rename the aliases still pair log names and display names one to one, and only the renamed
      branch shows a different name. */
  lemma RenameKeepsGood(log: seq<LogEvent>, renames: map<Name, Name>, origin: Name, newName: Name)
    requires Renamable(log, renames, origin, newName)
    ensures Good(log, Realiased(renames, origin, newName))
    ensures forall n :: Display(Realiased(renames, origin, newName), n) == if n == origin then newName else Display(renames, n)
  {
    var after := Realiased(renames, origin, newName);
    forall n ensures Display(after, n) == if n == origin then newName else Display(renames, n) {}
  }

  // ---------------------------------------------------------------- the edit against the rebuild

  function StickyOf(before: map<Name, Info>, name: Name): Sticky {
    if name in before then Carry(NOT_STICKY, before[name].sticky) else NOT_STICKY
  }

  lemma RebuiltEntry(log: seq<LogEvent>, stored: Index, n: Name)
    requires Good(log, stored.renames) && n in Names(log)
    ensures var name := Display(stored.renames, n);
            name in Rebuilt(log, stored).branches
            && Rebuilt(log, stored).branches[name] == InfoOf(log, stored.renames, n).(sticky := StickyOf(stored.branches, name))
  {
    hide Display, Carry;
    BuildIsIndex(log, stored.renames);
  }

  lemma RebuiltKeys(log: seq<LogEvent>, stored: Index)
    requires Good(log, stored.renames)
    ensures Rebuilt(log, stored).branches.Keys == set n | n in Names(log) :: Display(stored.renames, n)
  {
    BuildIsIndex(log, stored.renames);
  }

  function Edited(log: seq<LogEvent>, stored: Index, origin: Name, oldName: Name, newName: Name): Index
    requires oldName in Rebuilt(log, stored).branches
  {
    Index(Moved(Rebuilt(log, stored).branches, oldName, newName), Realiased(stored.renames, origin, newName))
  }

  lemma EditedEntry(log: seq<LogEvent>, stored: Index, origin: Name, newName: Name, n: Name)
    requires Renamable(log, stored.renames, origin, newName) && n in Names(log)
    requires Display(stored.renames, origin) in Rebuilt(log, stored).branches
    ensures var name := Display(Realiased(stored.renames, origin, newName), n);
            var edited := Edited(log, stored, origin, Display(stored.renames, origin), newName).branches;
            name in edited
            && edited[name] == InfoOf(log, stored.renames, n).(name := name, sticky := StickyOf(stored.branches, Display(stored.renames, n)))
  {
    hide Rebuilt, FactsOf, LastMerge, Shown, StickyOf, Realiased;
    RenameKeepsGood(log, stored.renames, origin, newName);
    RebuiltEntry(log, stored, n);
    assert n != origin ==> Display(stored.renames, n) != Display(stored.renames, origin);
  }

  /** The merge mark of `n` reads the same before and after the rename. */
  predicate MergeReadsSame(log: seq<LogEvent>, renames: map<Name, Name>, origin: Name, newName: Name, n: Name) {
    var before := LastMerge(log, n, Display(renames, n));
    if n == origin then before == LastMerge(log, n, newName) && before.into != origin else before.into != origin
  }

  lemma {:induction false} NamesNotEmpty(log: seq<LogEvent>)
    ensures "" !in Names(log) && MAIN in Names(log)
  {
    if log != [] {
      NamesNotEmpty(log[..|log|-1]);
    }
  }

  lemma MergeReadsSameIff(log: seq<LogEvent>, renames: map<Name, Name>, origin: Name, newName: Name, n: Name)
    requires Renamable(log, renames, origin, newName) && n in Names(log)
    ensures InfoOf(log, Realiased(renames, origin, newName), n).merged == InfoOf(log, renames, n).merged
       <==> MergeReadsSame(log, renames, origin, newName, n)
  {
    hide LastMerge;
    var after := Realiased(renames, origin, newName);
    RenameKeepsGood(log, renames, origin, newName);
    NamesNotEmpty(log);
    var a, b := LastMerge(log, n, Display(renames, n)), LastMerge(log, n, Display(after, n));
    MergeTarget(log, n, Display(renames, n));
    MergeTarget(log, n, Display(after, n));
    assert a.into != "" ==> a.into in Names(log) && Display(renames, a.into) != "";
    assert b.into != "" ==> b.into in Names(log) && Display(after, b.into) != "";
  }

  /** The edited index and the rebuilt one show the same branches, and agree on every field of every branch
      but, possibly, on where it was merged. */
  lemma EditMatchesButForMerges(log: seq<LogEvent>, stored: Index, origin: Name, newName: Name, n: Name)
    requires Renamable(log, stored.renames, origin, newName) && n in Names(log)
    requires Display(stored.renames, origin) in Rebuilt(log, stored).branches
    ensures var edited := Edited(log, stored, origin, Display(stored.renames, origin), newName);
            var name := Display(edited.renames, n);
            name in edited.branches && name in Rebuilt(log, edited).branches
            && Rebuilt(log, edited).branches[name]
               == edited.branches[name].(merged := InfoOf(log, edited.renames, n).merged)
            && edited.branches[name].merged == InfoOf(log, stored.renames, n).merged
  {
    hide Rebuilt, Moved, FactsOf, LastMerge, Shown, Realiased, Good, Display;
    var edited := Edited(log, stored, origin, Display(stored.renames, origin), newName);
    RenameKeepsGood(log, stored.renames, origin, newName);
    RebuiltEntry(log, edited, n);
    EditedEntry(log, stored, origin, newName, n);
  }

  lemma EditedKeys(log: seq<LogEvent>, stored: Index, origin: Name, newName: Name)
    requires Renamable(log, stored.renames, origin, newName)
    requires Display(stored.renames, origin) in Rebuilt(log, stored).branches
    ensures var edited := Edited(log, stored, origin, Display(stored.renames, origin), newName);
            edited.branches.Keys == set n | n in Names(log) :: Display(edited.renames, n)
  {
    hide Rebuilt, Realiased, Display;
    var edited := Edited(log, stored, origin, Display(stored.renames, origin), newName);
    RenameKeepsGood(log, stored.renames, origin, newName);
    RebuiltKeys(log, stored);
    forall n | n in Names(log) ensures Display(edited.renames, n) in edited.branches {
      EditedEntry(log, stored, origin, newName, n);
    }
    forall k | k in edited.branches ensures exists n :: n in Names(log) && Display(edited.renames, n) == k {
      if k == newName {
        assert Display(edited.renames, origin) == k;
      } else {
        var n :| n in Names(log) && Display(stored.renames, n) == k;
        assert Display(edited.renames, n) == k;
      }
    }
  }

  lemma SameIndex(log: seq<LogEvent>, renames: map<Name, Name>, a: map<Name, Info>, b: map<Name, Info>)
    requires a.Keys == b.Keys == set n | n in Names(log) :: Display(renames, n)
    requires forall n :: n in Names(log) ==> a[Display(renames, n)] == b[Display(renames, n)]
    ensures a == b
  {
    hide Display, Names;
    forall k | k in a ensures a[k] == b[k] {
      var n :| n in Names(log) && Display(renames, n) == k;
    }
  }

  /** The edited index is the one a rebuild gives exactly when every merge mark reads the same: the last
      merge of no other branch is into the renamed one, and the renamed branch was last merged, if at all,
      into another branch by a mark that its new name gives too. */
  lemma EditAgreesIff(log: seq<LogEvent>, stored: Index, origin: Name, newName: Name)
    requires Renamable(log, stored.renames, origin, newName)
    requires Display(stored.renames, origin) in Rebuilt(log, stored).branches
    ensures var edited := Edited(log, stored, origin, Display(stored.renames, origin), newName);
            Rebuilt(log, edited) == edited
            <==> forall n :: n in Names(log) ==> MergeReadsSame(log, stored.renames, origin, newName, n)
  {
    hide Moved, InfoOf, MergeReadsSame, Display, Good, Names;
    var edited := Edited(log, stored, origin, Display(stored.renames, origin), newName);
    RenameKeepsGood(log, stored.renames, origin, newName);
    EditedKeys(log, stored, origin, newName);
    RebuiltKeys(log, edited);
    var rebuilt := Rebuilt(log, edited).branches;
    hide Rebuilt;
    forall n | n in Names(log)
      ensures rebuilt[Display(edited.renames, n)] == edited.branches[Display(edited.renames, n)]
         <==> MergeReadsSame(log, stored.renames, origin, newName, n)
    {
      EditMatchesButForMerges(log, stored, origin, newName, n);
      MergeReadsSameIff(log, stored.renames, origin, newName, n);
    }
    assert rebuilt.Keys == edited.branches.Keys;
    if forall n :: n in Names(log) ==> MergeReadsSame(log, stored.renames, origin, newName, n) {
      SameIndex(log, edited.renames, rebuilt, edited.branches);
    }
  }
}
