/** Histories of renames over a growing log. */
module BranchHistory {
  import opened BranchIndex
  import opened BranchRename

  // ---------------------------------------------------------------- undoing a rename

  lemma RealiasedBack(log: seq<LogEvent>, renames: map<Name, Name>, origin: Name, newName: Name)
    requires Renamable(log, renames, origin, newName)
    ensures Realiased(Realiased(renames, origin, newName), origin, Display(renames, origin)) == renames
  {
    hide Names, Injective;
    var there := Realiased(renames, origin, newName);
    var back := Realiased(there, origin, Display(renames, origin));
    assert origin in Names(log) ==> Display(renames, origin) != newName;
    if origin in renames {
      assert renames[origin] != origin && back == there[origin := renames[origin]];
    } else {
      assert back == there - {origin};
    }
    assert back.Keys == renames.Keys;
  }

  lemma RenamableBack(log: seq<LogEvent>, renames: map<Name, Name>, origin: Name, newName: Name)
    requires Renamable(log, renames, origin, newName)
    ensures Renamable(log, Realiased(renames, origin, newName), origin, Display(renames, origin))
  {
    hide Display, Realiased;
    RenameKeepsGood(log, renames, origin, newName);
    ShownNotEmpty(log, renames, origin);
  }

  /** Renaming a branch and renaming it back leaves, after the next rebuild, the very index a rebuild gave
      before: its merge marks, lost or not in between, its archive mark and its tags included. */
  lemma RenameBackRestores(log: seq<LogEvent>, stored: Index, origin: Name, newName: Name)
    requires Renamable(log, stored.renames, origin, newName)
    requires Display(stored.renames, origin) in Rebuilt(log, stored).branches
    requires newName in Rebuilt(log, Edited(log, stored, origin, Display(stored.renames, origin), newName)).branches
    ensures var oldName := Display(stored.renames, origin);
            Rebuilt(log, Edited(log, Edited(log, stored, origin, oldName, newName), origin, newName, oldName)) == Rebuilt(log, stored)
  {
    hide Rebuilt, Moved, Display, Realiased, Good, InfoOf, Carry;
    var oldName := Display(stored.renames, origin);
    var there := Edited(log, stored, origin, oldName, newName);
    RenameKeepsGood(log, stored.renames, origin, newName);
    RealiasedBack(log, stored.renames, origin, newName);
    RenamableBack(log, stored.renames, origin, newName);
    var back := Edited(log, there, origin, newName, oldName);
    RebuiltKeys(log, stored);
    RebuiltKeys(log, back);
    forall n | n in Names(log)
      ensures Rebuilt(log, back).branches[Display(stored.renames, n)] == Rebuilt(log, stored).branches[Display(stored.renames, n)]
    {
      EditedEntry(log, stored, origin, newName, n);
      EditedEntry(log, there, origin, oldName, n);
      RebuiltEntry(log, stored, n);
      RebuiltEntry(log, back, n);
      CarriedTwice(stored.branches, Display(stored.renames, n));
    }
    SameIndex(log, stored.renames, Rebuilt(log, back).branches, Rebuilt(log, stored).branches);
    RebuiltRenames(log, back);
    RebuiltRenames(log, stored);
  }

  lemma RebuiltRenames(log: seq<LogEvent>, stored: Index)
    ensures Rebuilt(log, stored).renames == stored.renames
  {
  }

  lemma ShownNotEmpty(log: seq<LogEvent>, renames: map<Name, Name>, n: Name)
    requires Good(log, renames) && n in Names(log)
    ensures Display(renames, n) != ""
  {
    NamesNotEmpty(log);
  }

  lemma CarriedTwice(before: map<Name, Info>, name: Name)
    ensures Carry(NOT_STICKY, StickyOf(before, name)) == StickyOf(before, name)
  {
  }

  // ---------------------------------------------------------------- the log grows

  /** The next event's branch is in the log, or no branch shows its name. */
  predicate Fresh(log: seq<LogEvent>, renames: map<Name, Name>, e: LogEvent) {
    Normal(e.branch) in Names(log) || forall n :: n in Names(log) ==> Display(renames, n) != Normal(e.branch)
  }

  lemma NewNameInjective(renames: map<Name, Name>, names: set<Name>, b: Name)
    requires Injective(renames, names) && Display(renames, b) == b
    requires forall n :: n in names ==> Display(renames, n) != b
    ensures Injective(renames, names + {b})
  {
    hide Display;
  }

  /** One more event keeps names and display names paired exactly when its branch is already in the log or
      its name is shown by no branch. */
  lemma AppendKeepsGoodIff(log: seq<LogEvent>, renames: map<Name, Name>, e: LogEvent)
    requires Good(log, renames)
    ensures Good(log + [e], renames) <==> Fresh(log, renames, e)
  {
    var grown, b := log + [e], Normal(e.branch);
    assert grown[..|grown|-1] == log;
    assert Names(grown) == Names(log) + {b};
    hide Names, Normal;
    if b in Names(log) {
      assert Names(grown) == Names(log);
    } else {
      assert Display(renames, b) == b;
      hide Display;
      if n :| n in Names(log) && Display(renames, n) == b {
        assert n in Names(grown) && b in Names(grown) && n != b;
      } else {
        NewNameInjective(renames, Names(log), b);
      }
    }
  }

  /** A branch created under a name that a renamed branch shows is folded into that branch. */
  lemma ReusedNameCollides()
    ensures var fork := LogEvent("topic", "h1", 1, Fork("h0", MAIN, "cli", ""));
            var again := LogEvent("idea", "h2", 2, Fork("h0", MAIN, "cli", ""));
            Good([fork], map["topic" := "idea"]) && !Good([fork, again], map["topic" := "idea"])
            && "idea" in Build([fork, again], map["topic" := "idea"])
            && Build([fork, again], map["topic" := "idea"])["idea"].facts.eventCount == 2
  {
    var fork := LogEvent("topic", "h1", 1, Fork("h0", MAIN, "cli", ""));
    var again := LogEvent("idea", "h2", 2, Fork("h0", MAIN, "cli", ""));
    var log := [fork, again];
    assert [fork][..0] == [] && log[..1] == [fork];
    var renames := map["topic" := "idea"];
    assert Build([], renames) == map[MAIN := FreshInfo(MAIN)];
    assert Build([fork], renames) == Apply(Build([], renames), fork, renames);
    assert Build(log, renames) == Apply(Build([fork], renames), again, renames);
    assert Names([fork]) == {MAIN, "topic"};
    assert Names(log) == {MAIN, "topic", "idea"};
    assert Display(map["topic" := "idea"], "topic") == Display(map["topic" := "idea"], "idea");
  }

  /** A new event under a name that no branch shows keeps the names paired, but it makes a branch of that
      name if and only if the name is no alias's log name; otherwise it is one more event of the branch that
      was renamed away from it. */
  lemma CreateShowsIff(log: seq<LogEvent>, renames: map<Name, Name>, e: LogEvent)
    requires Good(log, renames) && forall n :: n in Names(log) ==> Display(renames, n) != Normal(e.branch)
    ensures Fresh(log, renames, e) && Good(log + [e], renames)
    ensures Normal(e.branch) in Build(log + [e], renames) <==> Normal(e.branch) !in renames
    ensures Normal(e.branch) in renames ==>
              var shown := renames[Normal(e.branch)];
              && shown in Build(log, renames) && shown in Build(log + [e], renames)
              && Build(log + [e], renames)[shown].facts == Touch(Build(log, renames)[shown].facts, e)
  {
    var grown, b := log + [e], Normal(e.branch);
    assert grown[..|grown|-1] == log;
    AppendKeepsGoodIff(log, renames, e);
    BuildIsIndex(log, renames);
    BuildIsIndex(grown, renames);
    assert Names(grown) == Names(log) + {b};
    assert FactsOf(grown, b) == Touch(FactsOf(log, b), e);
    hide Build, Names, FactsOf, LastMerge, Touch, Normal;
    if b in renames {
      assert renames[b] == Display(renames, b) && b in Names(log);
    } else {
      assert Display(renames, b) == b && b in Names(grown);
    }
  }

  /** After `topic` is renamed to `idea`, creating `topic` again adds to `idea`, and no `topic` appears. */
  lemma CreatedNameIsFolded()
    ensures var fork := LogEvent("topic", "h1", 1, Fork("h0", MAIN, "cli", ""));
            var again := LogEvent("topic", "h2", 2, Fork("h1", MAIN, "aplexica-cli", ""));
            var renames := map["topic" := "idea"];
            && Good([fork], renames) && Fresh([fork], renames, again) && Good([fork, again], renames)
            && "idea" in Build([fork, again], renames) && "topic" !in Build([fork, again], renames)
            && Build([fork, again], renames)["idea"].facts.eventCount == 2
            && Build([fork, again], renames)["idea"].facts.head == "h2"
  {
    var fork := LogEvent("topic", "h1", 1, Fork("h0", MAIN, "cli", ""));
    var again := LogEvent("topic", "h2", 2, Fork("h1", MAIN, "aplexica-cli", ""));
    var renames := map["topic" := "idea"];
    assert [fork][..0] == [];
    assert Names([fork]) == {MAIN, "topic"};
    assert [fork] + [again] == [fork, again];
    CreateShowsIff([fork], renames, again);
    BuildIsIndex([fork], renames);
    assert FactsOf([fork], "topic").eventCount == 1;
    assert Display(renames, "topic") == "idea" && "topic" in Names([fork]);
  }

  /** A merged branch loses its merge mark at the first rebuild after it is renamed. */
  lemma RenamedMergeIsForgotten()
    ensures var log := [LogEvent("topic", "h1", 1, Fork("h0", MAIN, "cli", "")), LogEvent(MAIN, "h2", 2, Merge("topic"))];
            var stored := Index(map[], map[]);
            "topic" in Rebuilt(log, stored).branches
            && Rebuilt(log, stored).branches["topic"].merged == MergeMark(MAIN, 2)
            && var edited := Edited(log, stored, "topic", "topic", "idea");
               "idea" in edited.branches && edited.branches["idea"].merged == MergeMark(MAIN, 2)
               && "idea" in Rebuilt(log, edited).branches && Rebuilt(log, edited).branches["idea"].merged == NOT_MERGED
  {
    var log := [LogEvent("topic", "h1", 1, Fork("h0", MAIN, "cli", "")), LogEvent(MAIN, "h2", 2, Merge("topic"))];
    var stored := Index(map[], map[]);
    assert log[..1] == [log[0]] && log[..1][..0] == [];
    assert Names(log[..1]) == {MAIN, "topic"};
    assert Names(log) == {MAIN, "topic"};
    assert LastMerge(log, "topic", "topic") == MergeMark(MAIN, 2);
    assert LastMerge(log[..1], "topic", "idea") == NOT_MERGED;
    assert LastMerge(log, "topic", "idea") == NOT_MERGED;
    assert Good(log, map[]);
    RebuiltEntry(log, stored, "topic");
    assert Renamable(log, map[], "topic", "idea");
    EditMatchesButForMerges(log, stored, "topic", "idea", "topic");
  }

  // ---------------------------------------------------------------- the command

  lemma ShownIff(log: seq<LogEvent>, stored: Index, name: Name)
    requires Good(log, stored.renames)
    ensures name in Rebuilt(log, stored).branches <==> exists n :: IsOrigin(log, stored.renames, name, n)
  {
    hide Rebuilt, Display;
    RebuiltKeys(log, stored);
    if name in Rebuilt(log, stored).branches {
      var n :| n in Names(log) && Display(stored.renames, n) == name;
      assert IsOrigin(log, stored.renames, name, n);
    }
  }

  ghost predicate IsShown(log: seq<LogEvent>, renames: map<Name, Name>, name: Name) {
    exists n :: IsOrigin(log, renames, name, n)
  }

  /** The aliases after the rename command, whichever way it ends. */
  ghost function AliasesAfter(log: seq<LogEvent>, renames: map<Name, Name>, oldName: Name, newName: Name): (after: map<Name, Name>)
    requires Good(log, renames) && newName != ""
    ensures Good(log, after)
  {
    if oldName == MAIN || !IsShown(log, renames, oldName) || IsShown(log, renames, newName) then renames
    else
      var origin :| IsOrigin(log, renames, oldName, origin);
      RenamedAliases(log, renames, oldName, newName, origin);
      Realiased(renames, origin, newName)
  }

  lemma RenamedAliases(log: seq<LogEvent>, renames: map<Name, Name>, oldName: Name, newName: Name, origin: Name)
    requires Good(log, renames) && newName != "" && oldName != MAIN && !IsShown(log, renames, newName)
    requires IsOrigin(log, renames, oldName, origin)
    ensures Renamable(log, renames, origin, newName) && Good(log, Realiased(renames, origin, newName))
    ensures forall n :: IsOrigin(log, renames, oldName, n) ==> n == origin
  {
    NamesNotEmpty(log);
    forall n | n in Names(log) ensures Display(renames, n) != newName {
      assert !IsOrigin(log, renames, newName, n);
    }
    RenameKeepsGood(log, renames, origin, newName);
  }

  datatype Op = Append(e: LogEvent) | Rename(oldName: Name, newName: Name)

  /** Somewhere in the history an event is appended whose new name a renamed branch shows at that time. */
  ghost predicate Collides(ops: seq<Op>, log: seq<LogEvent>, renames: map<Name, Name>)
    requires Good(log, renames) && WellNamed(ops)
    decreases |ops|
  {
    if ops == [] then false
    else
      match ops[0]
      case Append(e) =>
        AppendKeepsGoodIff(log, renames, e);
        !Fresh(log, renames, e) || Collides(ops[1..], log + [e], renames)
      case Rename(oldName, newName) => Collides(ops[1..], log, AliasesAfter(log, renames, oldName, newName))
  }

  predicate WellNamed(ops: seq<Op>) { forall op :: op in ops && op.Rename? ==> op.newName != "" }

  /** An artifact's event log and its stored branch index. */
  class ArtifactBranches {
    var log: seq<LogEvent>
    var index: Index

    ghost predicate Valid()
      reads this
    {
      Good(log, index.renames)
    }

    constructor ()
      ensures Valid() && log == [] && index == Index(map[], map[])
    {
      log, index := [], Index(map[], map[]);
    }

    ghost predicate Shows(name: Name)
      reads this
    {
      IsShown(log, index.renames, name)
    }

    /** The rename command.  `newName` is already in normal form. */
    method Rename(oldName: Name, newName: Name) returns (r: Result)
      requires Valid() && newName != ""
      modifies this`index
      ensures Valid()
      ensures r == if oldName == MAIN then MainRefused else if !old(Shows(oldName)) then NoSuchBranch
                   else if old(Shows(newName)) then NameTaken else Renamed
      ensures r == MainRefused ==> index == old(index)
      ensures r in {NoSuchBranch, NameTaken} ==> index == Rebuilt(log, old(index))
      ensures r == Renamed ==> oldName in Rebuilt(log, old(index)).branches
      ensures r == Renamed ==> forall origin :: IsOrigin(log, old(index.renames), oldName, origin) ==>
                index == Edited(log, old(index), origin, oldName, newName)
      ensures index.renames == AliasesAfter(log, old(index.renames), oldName, newName)
    {
      hide Rebuilt;
      if oldName == MAIN {
        return MainRefused;
      }
      var bi := RefreshBranchIndex(log, index);
      ShownIff(log, index, oldName);
      ShownIff(log, index, newName);
      RebuiltRenames(log, index);
      if oldName !in bi.branches {
        index := bi;
        return NoSuchBranch;
      }
      if newName in bi.branches {
        index := bi;
        return NameTaken;
      }
      var origin := FindOrigin(bi.renames, oldName);
      OriginIsUnique(log, bi.renames, oldName, origin);
      assert IsOrigin(log, bi.renames, oldName, origin);
      forall n | n in Names(log) ensures Display(bi.renames, n) != newName {
        assert !IsOrigin(log, bi.renames, newName, n);
      }
      RenameKeepsGood(log, bi.renames, origin, newName);
      var renames, branches := bi.renames, bi.branches;
      if origin == newName {
        renames := renames - {origin};
      } else {
        renames := renames[origin := newName];
      }
      var info := branches[oldName].(name := newName);
      branches := branches - {oldName};
      branches := branches[newName := info];
      RenamedAliases(log, index.renames, oldName, newName, origin);
      index := Index(branches, renames);
      r := Renamed;
    }

    /** Any sequence of renames keeps log names and display names paired one to one. */
    method RenameAll(renames: seq<(Name, Name)>) returns (results: seq<Result>)
      requires Valid() && forall i :: 0 <= i < |renames| ==> renames[i].1 != ""
      modifies this`index
      ensures Valid() && |results| == |renames|
    {
      results := [];
      for i := 0 to |renames|
        invariant Valid() && |results| == i
      {
        var r := Rename(renames[i].0, renames[i].1);
        results := results + [r];
      }
    }

    /** Appends one event; the names stay paired exactly when its name is not one that another branch shows. */
    method Append(e: LogEvent)
      requires Valid()
      modifies this`log
      ensures log == old(log) + [e]
      ensures Valid() <==> Fresh(old(log), index.renames, e)
    {
      AppendKeepsGoodIff(log, index.renames, e);
      log := log + [e];
    }

    /** A history of renames between appended events keeps log names and display names paired one to one,
        all the way, exactly when no event reuses a name a renamed branch shows; it stops at the first
        that does, with two branches folded into one name. */
    method Replay(ops: seq<Op>) returns (paired: bool)
      requires Valid() && WellNamed(ops)
      modifies this
      ensures paired <==> !Collides(ops, old(log), old(index.renames))
      ensures paired <==> Valid()
    {
      hide Good, Fresh, WellNamed, AliasesAfter;
      for i := 0 to |ops|
        invariant Valid() && WellNamed(ops[i..])
        invariant Collides(ops, old(log), old(index.renames)) <==> Collides(ops[i..], log, index.renames)
      {
        WellNamedRest(ops[i..]);
        assert ops[i..][1..] == ops[i+1..];
        match ops[i]
        case Append(e) =>
          var unshown := Fresh(log, index.renames, e);
          Append(e);
          if !unshown {
            return false;
          }
        case Rename(oldName, newName) =>
          var _ := Rename(oldName, newName);
      }
      paired := true;
    }
  }

  lemma WellNamedRest(ops: seq<Op>)
    requires ops != [] && WellNamed(ops)
    ensures WellNamed(ops[1..]) && (ops[0].Rename? ==> ops[0].newName != "")
  {
  }
}
