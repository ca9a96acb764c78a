/** What the replayed-block scan drops, what it always keeps, and how it behaves when a thread grows. */
module ReplayFacts {
  import opened ReplayBlocks

  /** A dropped block: two or more turns, one of them a user's, repeating a run that ended before it. */
  ghost predicate IsReplay<T>(turns: seq<TextTurn>, ids: seq<T>, start: nat, n: nat) {
    && |turns| == |ids| && n >= 2 && start + n <= |ids|
    && ContainsUser(turns[start..start+n])
    && exists origin: nat :: origin + n <= start && SameRun(ids, origin, start, n)
  }

  lemma {:induction false} MatchIsSameRun<T>(ids: seq<T>, origin: nat, i: nat, length: nat)
    requires origin < i && i + length <= |ids| && origin + length <= i
    requires SameRun(ids, origin, i, length)
    ensures SameRun(ids, origin, i, MatchLength(ids, origin, i, length))
    decreases |ids| - length
  {
    if i + length < |ids| && origin + length < i && ids[i+length] == ids[origin+length] {
      assert ids[origin..origin+length+1] == ids[origin..origin+length] + [ids[origin+length]];
      assert ids[i..i+length+1] == ids[i..i+length] + [ids[i+length]];
      MatchIsSameRun(ids, origin, i, length + 1);
    }
  }

  lemma BlockIsReplay<T>(turns: seq<TextTurn>, ids: seq<T>, i: nat)
    requires |turns| == |ids| && i < |ids| && BlockAt(turns, ids, i) > 0
    ensures IsReplay(turns, ids, i, BlockAt(turns, ids, i))
    ensures FirstAt(ids, ids[i]) + BlockAt(turns, ids, i) <= i
    ensures SameRun(ids, FirstAt(ids, ids[i]), i, BlockAt(turns, ids, i))
  {
    MatchIsSameRun(ids, FirstAt(ids, ids[i]), i, 0);
  }

  /** Whether turn `j` survives the scan started at `i`. */
  predicate KeptFrom<T(==)>(turns: seq<TextTurn>, ids: seq<T>, i: nat, j: nat)
    requires |turns| == |ids| && i <= j < |ids|
  {
    BlockMask(turns, ids, i)[j-i]
  }

  lemma KeptStep<T>(turns: seq<TextTurn>, ids: seq<T>, i: nat, j: nat)
    requires |turns| == |ids| && i <= j < |ids|
    ensures BlockAt(turns, ids, i) == 0 ==> KeptFrom(turns, ids, i, j) == (i == j || KeptFrom(turns, ids, i + 1, j))
    ensures BlockAt(turns, ids, i) > 0 ==>
      (KeptFrom(turns, ids, i, j) <==> i + BlockAt(turns, ids, i) <= j && KeptFrom(turns, ids, i + BlockAt(turns, ids, i), j))
  {
    hide BlockAt;
  }

  /** Everything dropped lies inside such a block. */
  lemma {:induction false} DroppedInReplay<T>(turns: seq<TextTurn>, ids: seq<T>, i: nat, j: nat) returns (start: nat, n: nat)
    requires |turns| == |ids| && i <= j < |ids|
    requires !KeptFrom(turns, ids, i, j)
    ensures i <= start <= j < start + n && start + n <= |ids|
    ensures n == BlockAt(turns, ids, start) && IsReplay(turns, ids, start, n)
    ensures FirstAt(ids, ids[start]) + n <= start && SameRun(ids, FirstAt(ids, ids[start]), start, n)
    decreases |ids| - i
  {
    hide BlockAt, IsReplay, KeptFrom, SameRun, FirstAt;
    var b := BlockAt(turns, ids, i);
    KeptStep(turns, ids, i, j);
    if b == 0 {
      start, n := DroppedInReplay(turns, ids, i + 1, j);
    } else if j < i + b {
      start, n := i, b;
      BlockIsReplay(turns, ids, i);
    } else {
      start, n := DroppedInReplay(turns, ids, i + b, j);
    }
  }

  /** The first occurrence of every identity survives. */
  lemma FirstOccurrenceKept<T>(turns: seq<TextTurn>, ids: seq<T>, j: nat)
    requires |turns| == |ids| && j < |ids| && ids[j] !in ids[..j]
    ensures KeptFrom(turns, ids, 0, j)
  {
    hide KeptFrom, IsReplay, BlockAt;
    if !KeptFrom(turns, ids, 0, j) {
      var start, n := DroppedInReplay(turns, ids, 0, j);
      RunRepeats(ids, FirstAt(ids, ids[start]), start, n, j);
    }
  }

  lemma RunRepeats<T>(ids: seq<T>, origin: nat, start: nat, n: nat, j: nat)
    requires SameRun(ids, origin, start, n) && origin + n <= start <= j < start + n
    ensures ids[j] in ids[..j]
  {
    var k := j - start;
    assert ids[origin..origin+n][k] == ids[start..start+n][k];
    assert ids[..j][origin+k] == ids[j];
  }

  // ---------------------------------------------------------------- growing threads

  lemma FirstAtGrown<T>(ids: seq<T>, more: seq<T>, x: T)
    requires x in ids
    ensures FirstAt(ids + more, x) == FirstAt(ids, x)
  {
    var k := FirstAt(ids, x);
    assert (ids + more)[k] == x && (ids + more)[..k] == ids[..k];
    FirstAtHere(ids + more, k);
  }

  /** A match that stopped inside the old thread is unchanged; one that ran to its end may grow. */
  lemma {:induction false} MatchGrown<T>(ids: seq<T>, more: seq<T>, origin: nat, i: nat, length: nat)
    requires origin < i && i + length <= |ids| && origin + length <= i
    ensures MatchLength(ids, origin, i, length) <= MatchLength(ids + more, origin, i, length)
    ensures i + MatchLength(ids, origin, i, length) < |ids| ==>
              MatchLength(ids + more, origin, i, length) == MatchLength(ids, origin, i, length)
    decreases |ids| - length
  {
    if i + length < |ids| {
      if origin + length < i && ids[i+length] == ids[origin+length] {
        MatchGrown(ids, more, origin, i, length + 1);
      }
    }
  }

  lemma UserInPrefix(turns: seq<TextTurn>, prefix: seq<TextTurn>)
    requires prefix <= turns && ContainsUser(prefix)
    ensures ContainsUser(turns)
  {
    var k :| 0 <= k < |prefix| && prefix[k].role == "user";
    assert turns[k].role == "user";
  }

  /** A block differs in the longer thread only if it now reaches past the old end. */
  lemma BlockGrown<T>(turns: seq<TextTurn>, moreTurns: seq<TextTurn>, ids: seq<T>, more: seq<T>, i: nat)
    requires |turns| == |ids| && |moreTurns| == |more| && i < |ids|
    ensures BlockAt(turns + moreTurns, ids + more, i) != BlockAt(turns, ids, i) ==>
              i + BlockAt(turns + moreTurns, ids + more, i) > |ids|
  {
    var x := ids[i];
    assert (ids + more)[i] == x;
    FirstAtGrown(ids, more, x);
    var origin := FirstAt(ids, x);
    if origin < i {
      MatchGrown(ids, more, origin, i, 0);
      var n, n' := MatchLength(ids, origin, i, 0), MatchLength(ids + more, origin, i, 0);
      assert (turns + moreTurns)[i..i+n] == turns[i..i+n];
      if ContainsUser(turns[i..i+n]) {
        UserInPrefix((turns + moreTurns)[i..i+n'], turns[i..i+n]);
      }
    }
  }

  /** From `i` on, the masks of a thread and of its extension agree up to `cut`; from there to the old
      end the longer one drops everything, in one block that straddles the old end. */
  ghost predicate GrowsAt<T>(turns: seq<TextTurn>, moreTurns: seq<TextTurn>, ids: seq<T>, more: seq<T>, i: nat, cut: nat)
    requires |turns| == |ids| && |moreTurns| == |more|
  {
    && i <= cut <= |ids|
    && (forall j :: i <= j < cut ==> KeptFrom(turns + moreTurns, ids + more, i, j) == KeptFrom(turns, ids, i, j))
    && (forall j :: cut <= j < |ids| ==> !KeptFrom(turns + moreTurns, ids + more, i, j))
    && (cut < |ids| ==> cut + BlockAt(turns + moreTurns, ids + more, cut) > |ids|)
  }

  lemma {:induction false} MasksGrow<T>(turns: seq<TextTurn>, moreTurns: seq<TextTurn>, ids: seq<T>, more: seq<T>, i: nat) returns (cut: nat)
    requires |turns| == |ids| && |moreTurns| == |more| && i <= |ids|
    ensures GrowsAt(turns, moreTurns, ids, more, i, cut)
    decreases |ids| - i
  {
    hide BlockAt, KeptFrom;
    if i == |ids| {
      cut := i;
    } else {
      var b, b' := BlockAt(turns, ids, i), BlockAt(turns + moreTurns, ids + more, i);
      BlockGrown(turns, moreTurns, ids, more, i);
      var next := if b == 0 then i + 1 else i + b;
      cut := i;
      if b == b' {
        cut := MasksGrow(turns, moreTurns, ids, more, next);
      }
      forall j | i <= j < |ids|
        ensures j < cut ==> KeptFrom(turns + moreTurns, ids + more, i, j) == KeptFrom(turns, ids, i, j)
        ensures cut <= j ==> !KeptFrom(turns + moreTurns, ids + more, i, j)
      {
        KeptStep(turns, ids, i, j);
        KeptStep(turns + moreTurns, ids + more, i, j);
      }
    }
  }

  /** Appending never brings a dropped turn back. */
  lemma AppendNeverRestores<T>(turns: seq<TextTurn>, moreTurns: seq<TextTurn>, ids: seq<T>, more: seq<T>, j: nat)
    requires |turns| == |ids| && |moreTurns| == |more| && j < |ids|
    requires !KeptFrom(turns, ids, 0, j)
    ensures !KeptFrom(turns + moreTurns, ids + more, 0, j)
  {
    hide KeptFrom, BlockAt;
    var cut := MasksGrow(turns, moreTurns, ids, more, 0);
  }

  // ---------------------------------------------------------------- repeating the scan

  lemma {:induction false} KeepsAllFrom<T>(turns: seq<TextTurn>, ids: seq<T>, i: nat)
    requires |turns| == |ids| && i <= |ids|
    ensures (forall j :: i <= j < |ids| ==> KeptFrom(turns, ids, i, j))
       <==> (forall j :: i <= j < |ids| ==> BlockAt(turns, ids, j) == 0)
    decreases |ids| - i
  {
    hide BlockAt, KeptFrom;
    if i < |ids| {
      KeptStep(turns, ids, i, i);
      if BlockAt(turns, ids, i) == 0 {
        var next := i + 1;
        KeepsAllFrom(turns, ids, next);
        forall j | next <= j < |ids| ensures KeptFrom(turns, ids, i, j) <==> KeptFrom(turns, ids, next, j) {
          KeptStep(turns, ids, i, j);
        }
      }
    }
  }

  /** The turns (or identities) a mask keeps, in order. */
  function Select<T>(s: seq<T>, mask: seq<bool>): (r: seq<T>)
    requires |s| == |mask|
    ensures |r| <= |s|
  {
    if s == [] then []
    else Select(s[..|s|-1], mask[..|s|-1]) + (if mask[|s|-1] then [s[|s|-1]] else [])
  }

  /** At `i` two or more turns, one of them a user's, repeat the run at the first occurrence of the
      identity there. */
  ghost predicate RepeatsFirst<T>(turns: seq<TextTurn>, ids: seq<T>, i: nat, n: nat) {
    && |turns| == |ids| && n >= 2 && i + n <= |ids|
    && ContainsUser(turns[i..i+n])
    && FirstAt(ids, ids[i]) + n <= i && SameRun(ids, FirstAt(ids, ids[i]), i, n)
  }

  /** The match found is the longest one. */
  lemma {:induction false} MatchIsLongest<T>(ids: seq<T>, origin: nat, i: nat, length: nat, n: nat)
    requires origin < i && i + length <= |ids| && origin + length <= i
    requires length <= n && origin + n <= i && SameRun(ids, origin, i, n)
    ensures MatchLength(ids, origin, i, length) >= n
    decreases n - length
  {
    if length < n {
      assert ids[origin..origin+n][length] == ids[i..i+n][length];
      MatchIsLongest(ids, origin, i, length + 1, n);
    }
  }

  /** A block starts at `i` exactly when some run there repeats. */
  lemma BlockIffRepeats<T>(turns: seq<TextTurn>, ids: seq<T>, i: nat)
    requires |turns| == |ids| && i < |ids|
    ensures BlockAt(turns, ids, i) > 0 <==> exists n :: RepeatsFirst(turns, ids, i, n)
  {
    if BlockAt(turns, ids, i) > 0 {
      BlockIsReplay(turns, ids, i);
      assert RepeatsFirst(turns, ids, i, BlockAt(turns, ids, i));
    }
    if n: nat :| RepeatsFirst(turns, ids, i, n) {
      var longest := MatchLength(ids, FirstAt(ids, ids[i]), i, 0);
      MatchIsLongest(ids, FirstAt(ids, ids[i]), i, 0, n);
      assert turns[i..i+n] <= turns[i..i+longest];
      UserInPrefix(turns[i..i+longest], turns[i..i+n]);
    }
  }

  /** The greedy scan keeps everything exactly when no run anywhere repeats. */
  lemma ScanQuietIff<T>(turns: seq<TextTurn>, ids: seq<T>)
    requires |turns| == |ids|
    ensures (forall j :: 0 <= j < |ids| ==> KeptFrom(turns, ids, 0, j)) <==> forall i: nat, n :: !RepeatsFirst(turns, ids, i, n)
  {
    hide BlockAt, KeptFrom, RepeatsFirst;
    KeepsAllFrom(turns, ids, 0);
    if i: nat, n: nat :| RepeatsFirst(turns, ids, i, n) {
      RepeatsInside(turns, ids, i, n);
      BlockIffRepeats(turns, ids, i);
      assert BlockAt(turns, ids, i) > 0;
    } else {
      forall j | 0 <= j < |ids| ensures BlockAt(turns, ids, j) == 0 {
        BlockIffRepeats(turns, ids, j);
      }
    }
  }

  lemma RepeatsInside<T>(turns: seq<TextTurn>, ids: seq<T>, i: nat, n: nat)
    requires RepeatsFirst(turns, ids, i, n)
    ensures i < |ids|
  {
  }

  lemma {:induction false} SelectSameLength<S, T>(s: seq<S>, t: seq<T>, mask: seq<bool>)
    requires |s| == |t| == |mask|
    ensures |Select(s, mask)| == |Select(t, mask)|
  {
    if s != [] {
      SelectSameLength(s[..|s|-1], t[..|t|-1], mask[..|s|-1]);
    }
  }

  const P := TextTurn("user", "p")
  const Q := TextTurn("assistant", "q")
  const C := TextTurn("user", "c")
  const D := TextTurn("assistant", "d")

  /** One scan, with each turn as its own identity. */
  function Scanned(turns: seq<TextTurn>): seq<TextTurn> {
    Select(turns, BlockMask(turns, turns, 0))
  }

  lemma FirstScan()
    ensures BlockMask([P, Q, C, D, P, C, D, Q], [P, Q, C, D, P, C, D, Q], 0)
         == [true, true, true, true, true, false, false, true]
  {
    var t := [P, Q, C, D, P, C, D, Q];
    FirstAtHere(t, 0); FirstAtHere(t, 1); FirstAtHere(t, 2); FirstAtHere(t, 3);
    assert MatchLength(t, 0, 4, 1) == 1 && MatchLength(t, 1, 7, 1) == 1;
    assert MatchLength(t, 2, 5, 2) == 2;
    assert MatchLength(t, 2, 5, 1) == 2;
    assert t[5..7][0] == C;
    assert BlockAt(t, t, 4) == 0 && BlockAt(t, t, 5) == 2 && BlockAt(t, t, 7) == 0;
    assert BlockMask(t, t, 8) == [];
    assert BlockMask(t, t, 7) == [true];
    assert BlockMask(t, t, 5) == [false, false, true];
    assert BlockMask(t, t, 4) == [true, false, false, true];
    assert BlockMask(t, t, 3) == [true, true, false, false, true];
    assert BlockMask(t, t, 2) == [true, true, true, false, false, true];
    assert BlockMask(t, t, 1) == [true, true, true, true, false, false, true];
  }

  lemma SecondScan()
    ensures BlockMask([P, Q, C, D, P, Q], [P, Q, C, D, P, Q], 0) == [true, true, true, true, false, false]
  {
    var t := [P, Q, C, D, P, Q];
    FirstAtHere(t, 0); FirstAtHere(t, 1); FirstAtHere(t, 2); FirstAtHere(t, 3);
    assert MatchLength(t, 0, 4, 2) == 2;
    assert MatchLength(t, 0, 4, 1) == 2;
    assert t[4..6][0] == P;
    assert BlockAt(t, t, 4) == 2;
    assert BlockMask(t, t, 6) == [];
    assert BlockMask(t, t, 4) == [false, false];
    assert BlockMask(t, t, 3) == [true, false, false];
    assert BlockMask(t, t, 2) == [true, true, false, false];
    assert BlockMask(t, t, 1) == [true, true, true, false, false];
  }

  /** The scan is not idempotent: dropping `c d` moves the last `q` next to the second `p`, where the
      next scan finds the block `p q`. */
  lemma ScanNotIdempotent()
    ensures Scanned([P, Q, C, D, P, C, D, Q]) == [P, Q, C, D, P, Q]
    ensures Scanned([P, Q, C, D, P, Q]) == [P, Q, C, D]
  {
    hide BlockMask;
    FirstScan();
    SecondScan();
    SelectSplit([P, Q, C, D, P], [true, true, true, true, true], [C, D, Q], [false, false, true]);
    SelectSplit([P, Q, C, D], [true, true, true, true], [P, Q], [false, false]);
    SelectSplit([C, D], [false, false], [Q], [true]);
    SelectAll([P, Q, C, D, P], [true, true, true, true, true]);
    SelectAll([P, Q, C, D], [true, true, true, true]);
    SelectNone([C, D], [false, false]);
    SelectNone([P, Q], [false, false]);
    SelectAll([Q], [true]);
    assert [P, Q, C, D, P, C, D, Q] == [P, Q, C, D, P] + [C, D, Q];
    assert [P, Q, C, D, P, Q] == [P, Q, C, D] + [P, Q];
    assert [C, D] + [Q] == [C, D, Q] && [false, false] + [true] == [false, false, true];
    assert [true, true, true, true, true] + [false, false, true] == [true, true, true, true, true, false, false, true];
    assert [true, true, true, true] + [false, false] == [true, true, true, true, false, false];
  }

  lemma {:induction false} SelectSplit<T>(s: seq<T>, m: seq<bool>, s': seq<T>, m': seq<bool>)
    requires |s| == |m| && |s'| == |m'|
    ensures Select(s + s', m + m') == Select(s, m) + Select(s', m')
  {
    if s' == [] {
      assert s + s' == s && m + m' == m;
    } else {
      var n := |s'| - 1;
      assert (s + s')[..|s|+n] == s + s'[..n] && (m + m')[..|s|+n] == m + m'[..n];
      SelectSplit(s, m, s'[..n], m'[..n]);
    }
  }

  lemma {:induction false} SelectAll<T>(s: seq<T>, m: seq<bool>)
    requires |s| == |m| && forall i :: 0 <= i < |m| ==> m[i]
    ensures Select(s, m) == s
  {
    if s != [] {
      SelectAll(s[..|s|-1], m[..|s|-1]);
    }
  }

  lemma {:induction false} SelectNone<T>(s: seq<T>, m: seq<bool>)
    requires |s| == |m| && forall i :: 0 <= i < |m| ==> !m[i]
    ensures Select(s, m) == []
  {
    if s != [] {
      SelectNone(s[..|s|-1], m[..|s|-1]);
    }
  }
}
