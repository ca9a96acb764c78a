/** Pass 0 of the conversation repair: a greedy left-to-right scan that drops replayed blocks.

    A turn's identity stands for its complete canonical event body, so the scan is generic in it. */
module ReplayBlocks {

  datatype TextTurn = TextTurn(role: string, text: string)

  predicate ContainsUser(turns: seq<TextTurn>) {
    exists i :: 0 <= i < |turns| && turns[i].role == "user"
  }

  /** Index of the first occurrence of `x`. */
  function FirstAt<T(==)>(ids: seq<T>, x: T): (k: nat)
    requires x in ids
    ensures k < |ids| && ids[k] == x && x !in ids[..k]
  {
    if ids[0] == x then 0 else
      assert ids == [ids[0]] + ids[1..];
      var k := FirstAt(ids[1..], x);
      assert ids[..k+1] == [ids[0]] + ids[1..][..k];
      k + 1
  }

  /** The `n` identities from `origin` reappear, position by position, from `i`. */
  predicate SameRun<T(==)>(ids: seq<T>, origin: nat, i: nat, n: nat) {
    origin + n <= |ids| && i + n <= |ids| && ids[origin..origin+n] == ids[i..i+n]
  }

  /** How far the run at `i` keeps matching the run at `origin`, staying clear of itself. */
  function MatchLength<T(==)>(ids: seq<T>, origin: nat, i: nat, length: nat): (n: nat)
    requires origin < i && i + length <= |ids| && origin + length <= i
    ensures length <= n && i + n <= |ids| && origin + n <= i
    decreases |ids| - length
  {
    if i + length < |ids| && origin + length < i && ids[i+length] == ids[origin+length]
    then MatchLength(ids, origin, i, length + 1) else length
  }

  /** Length of the block dropped at `i`; zero when the turn there is kept. */
  function BlockAt<T(==)>(turns: seq<TextTurn>, ids: seq<T>, i: nat): (n: nat)
    requires |turns| == |ids| && i < |ids|
    ensures i + n <= |ids|
  {
    var origin := FirstAt(ids, ids[i]);
    if origin >= i then 0 else
      var n := MatchLength(ids, origin, i, 0);
      if n < 2 || !ContainsUser(turns[i..i+n]) then 0 else n
  }

  /** The keep mask from position `i` on. */
  function BlockMask<T(==)>(turns: seq<TextTurn>, ids: seq<T>, i: nat): (mask: seq<bool>)
    requires |turns| == |ids| && i <= |ids|
    ensures |mask| == |ids| - i
    decreases |ids| - i
  {
    if i == |ids| then []
    else if BlockAt(turns, ids, i) == 0 then [true] + BlockMask(turns, ids, i + 1)
    else seq(BlockAt(turns, ids, i), _ => false) + BlockMask(turns, ids, i + BlockAt(turns, ids, i))
  }

  // ---------------------------------------------------------------- the scan

  method IndexFirst<T(==)>(ids: seq<T>) returns (firstAt: map<T, nat>)
    ensures forall i :: 0 <= i < |ids| ==> ids[i] in firstAt && firstAt[ids[i]] == FirstAt(ids, ids[i])
  {
    firstAt := map[];
    var i := 0;
    while i < |ids|
      invariant 0 <= i <= |ids|
      invariant forall x :: x in firstAt <==> x in ids[..i]
      invariant forall x :: x in firstAt ==> firstAt[x] == FirstAt(ids, x)
    {
      if ids[i] !in firstAt {
        FirstAtHere(ids, i);
        firstAt := firstAt[ids[i] := i];
      }
      assert ids[..i+1] == ids[..i] + [ids[i]];
      i := i + 1;
    }
    assert ids[..i] == ids;
  }

  lemma FirstAtHere<T>(ids: seq<T>, i: nat)
    requires i < |ids| && ids[i] !in ids[..i]
    ensures FirstAt(ids, ids[i]) == i
  {
    var k := FirstAt(ids, ids[i]);
    assert forall j :: 0 <= j < i ==> ids[..i][j] == ids[j];
    assert forall j :: 0 <= j < k ==> ids[..k][j] == ids[j];
  }

  method ReplayedTurnBlockKeepMask<T(==)>(turns: seq<TextTurn>, ids: seq<T>) returns (keep: array<bool>)
    ensures fresh(keep) && keep.Length == |turns|
    ensures |ids| != |turns| ==> forall i :: 0 <= i < keep.Length ==> keep[i]
    ensures |ids| == |turns| ==> keep[..] == BlockMask(turns, ids, 0)
  {
    keep := new bool[|turns|](_ => true);
    if |ids| != |turns| {
      return;
    }
    hide BlockAt, BlockMask, FirstAt, MaskedTo;
    var firstAt := IndexFirst(ids);
    ghost var mask := BlockMask(turns, ids, 0);
    var i := 0;
    MaskStarts(turns, ids, keep[..]);
    while i < |turns|
      invariant 0 <= i <= |turns| && MaskedTo(turns, ids, mask, keep[..], i)
      modifies keep
    {
      var length := MeasureBlock(turns, ids, firstAt[ids[i]], i);
      ghost var before := keep[..];
      if length == 0 {
        KeepTurn(turns, ids, mask, before, i);
        i := i + 1;
      } else {
        DropRun(keep, i, length);
        DropBlock(turns, ids, mask, before, keep[..], i);
        i := i + length;
      }
    }
    MaskEnds(turns, ids, mask, keep[..]);
  }

  /** The scan has settled every turn before `i` and touched none from `i` on. */
  ghost predicate MaskedTo<T>(turns: seq<TextTurn>, ids: seq<T>, mask: seq<bool>, keep: seq<bool>, i: nat) {
    && |turns| == |ids| == |mask| == |keep| && i <= |ids|
    && keep[..i] == mask[..i] && (forall j :: i <= j < |keep| ==> keep[j])
    && mask[i..] == BlockMask(turns, ids, i)
  }

  lemma MaskStarts<T>(turns: seq<TextTurn>, ids: seq<T>, keep: seq<bool>)
    requires |turns| == |ids| == |keep| && forall j :: 0 <= j < |keep| ==> keep[j]
    ensures MaskedTo(turns, ids, BlockMask(turns, ids, 0), keep, 0)
  {
  }

  lemma MaskEnds<T>(turns: seq<TextTurn>, ids: seq<T>, mask: seq<bool>, keep: seq<bool>)
    requires MaskedTo(turns, ids, mask, keep, |ids|)
    ensures keep == mask
  {
    assert keep[..|ids|] == keep && mask[..|ids|] == mask;
  }

  lemma KeepTurn<T>(turns: seq<TextTurn>, ids: seq<T>, mask: seq<bool>, keep: seq<bool>, i: nat)
    requires MaskedTo(turns, ids, mask, keep, i) && i < |ids| && BlockAt(turns, ids, i) == 0
    ensures MaskedTo(turns, ids, mask, keep, i + 1)
  {
    hide BlockAt, BlockMask;
    MaskAdvance(turns, ids, mask, i);
  }

  lemma DropBlock<T>(turns: seq<TextTurn>, ids: seq<T>, mask: seq<bool>, before: seq<bool>, keep: seq<bool>, i: nat)
    requires MaskedTo(turns, ids, mask, before, i) && i < |ids| && BlockAt(turns, ids, i) > 0 && |keep| == |before|
    requires forall m :: 0 <= m < |keep| ==> keep[m] == (before[m] && !(i <= m < i + BlockAt(turns, ids, i)))
    ensures MaskedTo(turns, ids, mask, keep, i + BlockAt(turns, ids, i))
  {
    hide BlockAt, BlockMask;
    MaskAdvance(turns, ids, mask, i);
    assert forall m :: 0 <= m < i ==> before[..i][m] == mask[..i][m];
  }

  /** The length to drop at `i`, given where the identity there first occurs. */
  method MeasureBlock<T(==)>(turns: seq<TextTurn>, ids: seq<T>, origin: nat, i: nat) returns (length: nat)
    requires |turns| == |ids| && i < |ids| && origin == FirstAt(ids, ids[i])
    ensures length == BlockAt(turns, ids, i)
  {
    if origin >= i {
      return 0;
    }
    length := ExtendRun(ids, origin, i);
    var user := HasUserTurn(turns[i..i+length]);
    if length < 2 || !user {
      length := 0;
    }
  }

  /** Extends a match while the earlier run keeps matching and stays clear of the later one. */
  method ExtendRun<T(==)>(ids: seq<T>, origin: nat, i: nat) returns (length: nat)
    requires origin < i < |ids|
    ensures length == MatchLength(ids, origin, i, 0) && i + length <= |ids|
  {
    length := 0;
    while i + length < |ids| && origin + length < i && ids[i+length] == ids[origin+length]
      invariant i + length <= |ids| && origin + length <= i
      invariant MatchLength(ids, origin, i, length) == MatchLength(ids, origin, i, 0)
    {
      length := length + 1;
    }
  }

  method DropRun(keep: array<bool>, i: nat, length: nat)
    requires i + length <= keep.Length
    modifies keep
    ensures forall m :: 0 <= m < keep.Length ==> keep[..][m] == (old(keep[..])[m] && !(i <= m < i + length))
  {
    for j := i to i + length
      invariant forall m :: 0 <= m < keep.Length ==> keep[m] == (old(keep[m]) && !(i <= m < j))
    {
      keep[j] := false;
    }
  }

  method HasUserTurn(turns: seq<TextTurn>) returns (user: bool)
    ensures user == ContainsUser(turns)
  {
    for i := 0 to |turns|
      invariant forall k :: 0 <= k < i ==> turns[k].role != "user"
    {
      if turns[i].role == "user" {
        return true;
      }
    }
    return false;
  }

  /** The mask from `i` starts with one kept turn or with one dropped block. */
  lemma MaskAdvance<T>(turns: seq<TextTurn>, ids: seq<T>, mask: seq<bool>, i: nat)
    requires |turns| == |ids| == |mask| && i < |ids| && mask[i..] == BlockMask(turns, ids, i)
    ensures var n := BlockAt(turns, ids, i);
      && (n == 0 ==> mask[i] && mask[i+1..] == BlockMask(turns, ids, i + 1))
      && (n > 0 ==> (forall m :: i <= m < i + n ==> !mask[m]) && mask[i+n..] == BlockMask(turns, ids, i + n))
  {
    hide BlockAt;
    var n := BlockAt(turns, ids, i);
    var step := if n == 0 then [true] else seq(n, _ => false);
    var m := |step|;
    assert mask[i..] == step + BlockMask(turns, ids, i + m);
    assert mask[i+m..] == mask[i..][m..];
    assert forall k :: i <= k < i + m ==> mask[k] == mask[i..][k-i];
  }
}
