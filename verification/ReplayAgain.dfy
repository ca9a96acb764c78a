/** What the first scan leaves for a second one, told on the positions of the original thread. */
module ReplayAgain {
  import opened ReplayBlocks
  import opened ReplayFacts

  /** The positions a mask keeps. */
  function KeptPositions(mask: seq<bool>): (p: seq<nat>)
    ensures |p| <= |mask|
    ensures forall k :: 0 <= k < |p| ==> p[k] < |mask| && mask[p[k]]
  {
    if mask == [] then []
    else KeptPositions(mask[..|mask|-1]) + (if mask[|mask|-1] then [|mask| - 1] else [])
  }

  ghost predicate Increasing(p: seq<nat>) { forall a, b :: 0 <= a < b < |p| ==> p[a] < p[b] }

  lemma {:induction false} KeptInOrder(mask: seq<bool>)
    ensures Increasing(KeptPositions(mask))
  {
    if mask != [] {
      KeptInOrder(mask[..|mask|-1]);
    }
  }

  lemma {:induction false} KeptListed(mask: seq<bool>, j: nat) returns (k: nat)
    requires j < |mask| && mask[j]
    ensures k < |KeptPositions(mask)| && KeptPositions(mask)[k] == j
  {
    if j == |mask| - 1 {
      k := |KeptPositions(mask)| - 1;
    } else {
      k := KeptListed(mask[..|mask|-1], j);
    }
  }

  predicate Inside(p: seq<nat>, n: nat) { forall k :: 0 <= k < |p| ==> p[k] < n }

  /** The items at the positions `p`. */
  function Picked<T>(s: seq<T>, p: seq<nat>): (r: seq<T>)
    requires Inside(p, |s|)
    ensures |r| == |p| && forall k :: 0 <= k < |p| ==> r[k] == s[p[k]]
  {
    seq(|p|, k requires 0 <= k < |p| => s[p[k]])
  }

  lemma {:induction false} SelectIsPicked<T>(s: seq<T>, mask: seq<bool>)
    requires |s| == |mask|
    ensures Inside(KeptPositions(mask), |s|) && Select(s, mask) == Picked(s, KeptPositions(mask))
  {
    if s != [] {
      SelectIsPicked(s[..|s|-1], mask[..|s|-1]);
    }
  }

  lemma PickedSlice<T>(s: seq<T>, p: seq<nat>, a: nat, b: nat)
    requires Inside(p, |s|) && a <= b <= |p|
    ensures Inside(p[a..b], |s|) && Picked(s, p[a..b]) == Picked(s, p)[a..b]
  {
  }

  /** The positions are one stretch of the thread. */
  predicate OneStretch(p: seq<nat>) {
    p != [] && p[|p|-1] == p[0] + (|p| - 1)
  }

  lemma {:induction false} Apart(p: seq<nat>, a: nat, b: nat)
    requires Increasing(p) && a <= b < |p|
    ensures p[b] >= p[a] + (b - a)
    decreases b
  {
    if a < b {
      Apart(p, a, b - 1);
      assert p[b-1] < p[b];
    }
  }

  lemma StretchIsSlice<T>(s: seq<T>, p: seq<nat>)
    requires Inside(p, |s|) && Increasing(p) && OneStretch(p)
    ensures Picked(s, p) == s[p[0]..p[0]+|p|]
  {
    forall m | 0 <= m < |p| ensures p[m] == p[0] + m {
      Apart(p, 0, m);
      Apart(p, m, |p| - 1);
    }
  }

  /** Among the positions `p`, the `n` from the i-th repeat the `n` from the o-th, which start at the
      thread's first occurrence of their identity; a user's turn is among them. */
  ghost predicate RepeatsAt<T>(turns: seq<TextTurn>, ids: seq<T>, p: seq<nat>, o: nat, i: nat, n: nat) {
    && |turns| == |ids| && Inside(p, |ids|)
    && n >= 2 && o + n <= i && i + n <= |p|
    && p[o] == FirstAt(ids, ids[p[i]])
    && Picked(ids, p)[o..o+n] == Picked(ids, p)[i..i+n]
    && ContainsUser(Picked(turns, p)[i..i+n])
  }

  /** Such a repetition bridges a dropped block: its copy or the run it copies is torn in the thread. */
  ghost predicate Bridges<T>(turns: seq<TextTurn>, ids: seq<T>, p: seq<nat>, o: nat, i: nat, n: nat) {
    RepeatsAt(turns, ids, p, o, i, n) && !(OneStretch(p[o..o+n]) && OneStretch(p[i..i+n]))
  }

  /** A turn the scan keeps was visited, and no block starts at it. */
  lemma {:induction false} KeptStartsNoBlock<T>(turns: seq<TextTurn>, ids: seq<T>, i: nat, j: nat)
    requires |turns| == |ids| && i <= j < |ids| && KeptFrom(turns, ids, i, j)
    ensures BlockAt(turns, ids, j) == 0
    decreases |ids| - i
  {
    hide BlockAt, KeptFrom;
    KeptStep(turns, ids, i, j);
    var b := BlockAt(turns, ids, i);
    if b > 0 {
      KeptStartsNoBlock(turns, ids, i + b, j);
    } else if i < j {
      KeptStartsNoBlock(turns, ids, i + 1, j);
    }
  }

  /** First occurrences are kept, so a kept turn's first kept occurrence is its first one. */
  lemma FirstKept<T>(turns: seq<TextTurn>, ids: seq<T>, i: nat)
    requires |turns| == |ids|
    requires i < |KeptPositions(BlockMask(turns, ids, 0))|
    ensures var mask := BlockMask(turns, ids, 0);
      var p, ids' := KeptPositions(mask), Select(ids, mask);
      |ids'| == |p| && Inside(p, |ids|) && p[FirstAt(ids', ids'[i])] == FirstAt(ids, ids[p[i]])
  {
    var mask := BlockMask(turns, ids, 0);
    var p, ids' := KeptPositions(mask), Select(ids, mask);
    SelectIsPicked(ids, mask);
    KeptInOrder(mask);
    hide BlockMask, KeptPositions, Select, FirstAt;
    var q := FirstAt(ids, ids[p[i]]);
    FirstOccurrenceKept(turns, ids, q);
    assert mask[q];
    var k := KeptListed(mask, q);
    forall a | 0 <= a < k ensures ids'[..k][a] != ids'[k] {
      assert p[a] < p[k] && ids[..q][p[a]] == ids'[a];
    }
    FirstAtHere(ids', k);
  }

  /** What repeats among the kept turns, told on positions. */
  lemma RepeatOnPositions<T>(turns: seq<TextTurn>, ids: seq<T>, i: nat, n: nat)
    requires |turns| == |ids|
    ensures var mask := BlockMask(turns, ids, 0);
      var turns', ids', p := Select(turns, mask), Select(ids, mask), KeptPositions(mask);
      RepeatsFirst(turns', ids', i, n) <==> exists o: nat :: RepeatsAt(turns, ids, p, o, i, n)
  {
    var mask := BlockMask(turns, ids, 0);
    var turns', ids', p := Select(turns, mask), Select(ids, mask), KeptPositions(mask);
    SelectIsPicked(turns, mask);
    SelectIsPicked(ids, mask);
    KeptInOrder(mask);
    if i < |p| {
      FirstKept(turns, ids, i);
      hide BlockMask, KeptPositions, Select, FirstAt, Picked, ContainsUser;
      var o := FirstAt(ids', ids'[i]);
      if o': nat :| o' < |p| && p[o'] == p[o] {
        assert o' == o;
      }
      assert RepeatsFirst(turns', ids', i, n) <==> RepeatsAt(turns, ids, p, o, i, n);
      forall o': nat | RepeatsAt(turns, ids, p, o', i, n) ensures o' == o {
        assert p[o'] == p[o];
      }
    }
  }

  /** Whatever still repeats after one scan bridges a block that scan dropped. */
  lemma LeftoverBridges<T>(turns: seq<TextTurn>, ids: seq<T>, o: nat, i: nat, n: nat)
    requires |turns| == |ids|
    requires RepeatsAt(turns, ids, KeptPositions(BlockMask(turns, ids, 0)), o, i, n)
    ensures Bridges(turns, ids, KeptPositions(BlockMask(turns, ids, 0)), o, i, n)
  {
    var mask := BlockMask(turns, ids, 0);
    var p := KeptPositions(mask);
    KeptInOrder(mask);
    hide BlockMask, KeptPositions;
    if OneStretch(p[o..o+n]) && OneStretch(p[i..i+n]) {
      StretchRepeats(turns, ids, p, o, i, n);
      BlockIffRepeats(turns, ids, p[i]);
      assert mask[p[i]];
      KeptStartsNoBlock(turns, ids, 0, p[i]);
    }
  }

  lemma StretchInThread<T>(s: seq<T>, p: seq<nat>, a: nat, n: nat)
    requires Inside(p, |s|) && Increasing(p) && n > 0 && a + n <= |p| && OneStretch(p[a..a+n])
    ensures p[a] + n <= |s| && Picked(s, p)[a..a+n] == s[p[a]..p[a]+n]
    ensures p[a] + n == p[a+n-1] + 1
  {
    PickedSlice(s, p, a, a + n);
    assert Increasing(p[a..a+n]);
    StretchIsSlice(s, p[a..a+n]);
    assert p[a..a+n][n-1] == p[a+n-1];
  }

  /** A repetition torn nowhere repeats in the thread itself. */
  lemma StretchRepeats<T>(turns: seq<TextTurn>, ids: seq<T>, p: seq<nat>, o: nat, i: nat, n: nat)
    requires Increasing(p) && RepeatsAt(turns, ids, p, o, i, n)
    requires OneStretch(p[o..o+n]) && OneStretch(p[i..i+n])
    ensures RepeatsFirst(turns, ids, p[i], n)
  {
    assert p[o+n-1] < p[i];
    hide FirstAt, Picked, Increasing, OneStretch, ContainsUser;
    StretchInThread(ids, p, o, n);
    StretchInThread(ids, p, i, n);
    StretchInThread(turns, p, i, n);
  }

  /** A second scan is quiet exactly when no repetition bridges a block that the first one dropped. */
  lemma SecondScanQuietIff<T>(turns: seq<TextTurn>, ids: seq<T>)
    requires |turns| == |ids|
    ensures var mask := BlockMask(turns, ids, 0);
      var turns', ids', p := Select(turns, mask), Select(ids, mask), KeptPositions(mask);
      |turns'| == |ids'| &&
      ((forall j :: 0 <= j < |ids'| ==> KeptFrom(turns', ids', 0, j))
        <==> forall o: nat, i: nat, n: nat :: !Bridges(turns, ids, p, o, i, n))
  {
    var mask := BlockMask(turns, ids, 0);
    var turns', ids', p := Select(turns, mask), Select(ids, mask), KeptPositions(mask);
    SelectSameLength(turns, ids, mask);
    ScanQuietIff(turns', ids');
    hide KeptFrom, RepeatsFirst, Bridges, BlockMask, Select, KeptPositions;
    if o: nat, i: nat, n: nat :| Bridges(turns, ids, p, o, i, n) {
      BridgeRepeats(turns, ids, o, i, n);
    } else {
      forall i: nat, n: nat ensures !RepeatsFirst(turns', ids', i, n) {
        if RepeatsFirst(turns', ids', i, n) {
          var o := RepeatBridges(turns, ids, i, n);
        }
      }
    }
  }

  lemma BridgeRepeats<T>(turns: seq<TextTurn>, ids: seq<T>, o: nat, i: nat, n: nat)
    requires |turns| == |ids| && Bridges(turns, ids, KeptPositions(BlockMask(turns, ids, 0)), o, i, n)
    ensures RepeatsFirst(Select(turns, BlockMask(turns, ids, 0)), Select(ids, BlockMask(turns, ids, 0)), i, n)
  {
    hide RepeatsFirst, BlockMask, Select, KeptPositions;
    RepeatOnPositions(turns, ids, i, n);
  }

  lemma RepeatBridges<T>(turns: seq<TextTurn>, ids: seq<T>, i: nat, n: nat) returns (o: nat)
    requires |turns| == |ids|
    requires RepeatsFirst(Select(turns, BlockMask(turns, ids, 0)), Select(ids, BlockMask(turns, ids, 0)), i, n)
    ensures Bridges(turns, ids, KeptPositions(BlockMask(turns, ids, 0)), o, i, n)
  {
    hide RepeatsFirst, RepeatsAt, Bridges, BlockMask, Select, KeptPositions;
    RepeatOnPositions(turns, ids, i, n);
    o :| RepeatsAt(turns, ids, KeptPositions(BlockMask(turns, ids, 0)), o, i, n);
    LeftoverBridges(turns, ids, o, i, n);
  }

  lemma {:induction false} AllKeptPositions(mask: seq<bool>, k: nat)
    requires k <= |mask| && (forall j :: 0 <= j < k ==> mask[j]) && (forall j :: k <= j < |mask| ==> !mask[j])
    ensures |KeptPositions(mask)| == k && forall j :: 0 <= j < k ==> KeptPositions(mask)[j] == j
    decreases |mask|
  {
    if mask != [] {
      AllKeptPositions(mask[..|mask|-1], if k == |mask| then k - 1 else k);
    }
  }

  /** When all that was dropped is the end of the thread, a second scan is quiet. */
  lemma DroppedEndIsQuiet<T>(turns: seq<TextTurn>, ids: seq<T>, k: nat)
    requires |turns| == |ids| && k <= |ids|
    requires forall j :: 0 <= j < |ids| ==> (KeptFrom(turns, ids, 0, j) <==> j < k)
    ensures var mask := BlockMask(turns, ids, 0);
      var turns', ids' := Select(turns, mask), Select(ids, mask);
      |turns'| == |ids'| && forall j :: 0 <= j < |ids'| ==> KeptFrom(turns', ids', 0, j)
  {
    var mask := BlockMask(turns, ids, 0);
    forall j | 0 <= j < |ids| ensures mask[j] <==> j < k {
      assert KeptFrom(turns, ids, 0, j) <==> j < k;
    }
    AllKeptPositions(mask, k);
    SecondScanQuietIff(turns, ids);
    hide BlockMask, KeptPositions, KeptFrom, Select, RepeatsAt;
    forall o: nat, i: nat, n: nat ensures !Bridges(turns, ids, KeptPositions(mask), o, i, n) {
      PrefixBridgesNothing(turns, ids, KeptPositions(mask), o, i, n);
    }
  }

  lemma PrefixBridgesNothing<T>(turns: seq<TextTurn>, ids: seq<T>, p: seq<nat>, o: nat, i: nat, n: nat)
    requires forall j :: 0 <= j < |p| ==> p[j] == j
    ensures !Bridges(turns, ids, p, o, i, n)
  {
  }
}
