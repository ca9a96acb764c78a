/** The full keep mask: the block pass, then adjacent echoes, then a trailing echo. */
module KeepMask {
  import opened ReplayBlocks
  import opened ReplayFacts
  import opened Transcript

  /** Index of the last kept turn, or -1. */
  function LastKept(mask: seq<bool>): (p: int)
    ensures -1 <= p < |mask|
    ensures p >= 0 ==> mask[p]
    ensures forall k :: p < k < |mask| ==> !mask[k]
  {
    if mask == [] then -1
    else if mask[|mask|-1] then |mask| - 1
    else LastKept(mask[..|mask|-1])
  }

  /** The mask after the adjacent-echo pass over the first `n` turns. */
  function EchoMask(turns: seq<TextTurn>, keep: seq<bool>, n: nat): (mask: seq<bool>)
    requires n <= |turns| == |keep|
    ensures |mask| == n
  {
    if n == 0 then []
    else
      var front := EchoMask(turns, keep, n - 1);
      var prev := LastKept(front);
      front + [keep[n-1] && !(prev >= 0 && turns[prev] == turns[n-1])]
  }

  /** Whether the last survivor is a user turn that repeats an earlier surviving user turn. */
  predicate TrailingEcho(turns: seq<TextTurn>, mask: seq<bool>)
    requires |turns| == |mask|
  {
    var last := LastKept(mask);
    && last > 0 && turns[last].role == "user"
    && exists i :: 0 <= i < last && mask[i] && turns[i].role == "user" && turns[i].text == turns[last].text
  }

  function TrailMask(turns: seq<TextTurn>, mask: seq<bool>): (m: seq<bool>)
    requires |turns| == |mask|
    ensures |m| == |mask|
  {
    if TrailingEcho(turns, mask) then mask[LastKept(mask) := false] else mask
  }

  /** The block pass, guarded as in the scan: misaligned identities keep everything. */
  function BlockPass<T(==)>(turns: seq<TextTurn>, ids: seq<T>): (mask: seq<bool>)
    ensures |mask| == |turns|
  {
    if |ids| == |turns| then BlockMask(turns, ids, 0) else seq(|turns|, _ => true)
  }

  function TurnMask<T(==)>(turns: seq<TextTurn>, ids: seq<T>): (mask: seq<bool>)
    ensures |mask| == |turns|
  {
    TrailMask(turns, EchoMask(turns, BlockPass(turns, ids), |turns|))
  }

  /** The mask of a conversation, one entry per visible turn. */
  function KeepMaskOf(events: seq<ConvEvent>, norm: Normalizer): (mask: seq<bool>)
    ensures |mask| == |ExtractTextTurns(events, norm)|
  {
    TurnMask(ExtractTextTurns(events, norm), Identities(events, norm))
  }

  // ---------------------------------------------------------------- the three passes in place

  method ConversationTurnKeepMask(events: seq<ConvEvent>, norm: Normalizer) returns (keep: array<bool>)
    ensures fresh(keep) && keep[..] == KeepMaskOf(events, norm)
  {
    hide BlockMask, EchoMask, TrailingEcho;
    var turns := ExtractTextTurns(events, norm);
    IdentitiesAlign(events, norm);
    var ids := VisibleTurnIdentities(events, norm, |turns|);
    keep := ReplayedTurnBlockKeepMask(turns, ids);
    DropAdjacentEchoes(turns, keep);
    DropTrailingEcho(turns, keep);
  }

  method DropAdjacentEchoes(turns: seq<TextTurn>, keep: array<bool>)
    requires keep.Length == |turns|
    modifies keep
    ensures keep[..] == EchoMask(turns, old(keep[..]), |turns|)
  {
    hide LastKept;
    ghost var before := keep[..];
    var prev := -1;
    LastKeptEmpty();
    for i := 0 to |turns|
      invariant keep[..i] == EchoMask(turns, before, i)
      invariant keep[i..] == before[i..]
      invariant -1 <= prev < i && prev == LastKept(keep[..i])
    {
      ghost var front := keep[..i];
      EchoStep(turns, before, i);
      assert keep[i] == before[i] by { assert keep[i..][0] == before[i..][0]; }
      if keep[i] {
        if prev >= 0 && turns[prev].role == turns[i].role && turns[prev].text == turns[i].text {
          keep[i] := false;
        } else {
          prev := i;
        }
      }
      assert keep[..i+1] == front + [keep[i]];
      LastKeptSnoc(front, keep[i]);
    }
    assert keep[..|turns|] == keep[..];
  }

  lemma LastKeptEmpty()
    ensures LastKept([]) == -1
  {
  }

  lemma LastKeptSnoc(front: seq<bool>, b: bool)
    ensures LastKept(front + [b]) == if b then |front| else LastKept(front)
  {
    assert (front + [b])[..|front|] == front;
  }

  lemma EchoStep(turns: seq<TextTurn>, keep: seq<bool>, i: nat)
    requires i < |turns| == |keep|
    ensures var front := EchoMask(turns, keep, i);
      var prev := LastKept(front);
      EchoMask(turns, keep, i + 1) == front + [keep[i] && !(prev >= 0 && turns[prev] == turns[i])]
  {
  }

  method DropTrailingEcho(turns: seq<TextTurn>, keep: array<bool>)
    requires keep.Length == |turns|
    modifies keep
    ensures keep[..] == TrailMask(turns, old(keep[..]))
  {
    var last := -1;
    var i := |turns| - 1;
    while i >= 0 && last < 0
      invariant -1 <= i < |turns| && -1 <= last < |turns|
      invariant last < 0 ==> forall k :: i < k < |turns| ==> !keep[k]
      invariant last >= 0 ==> keep[last] && forall k :: last < k < |turns| ==> !keep[k]
      decreases i - last
    {
      if keep[i] {
        last := i;
      } else {
        i := i - 1;
      }
    }
    LastKeptIs(keep[..], last);
    if last <= 0 || turns[last].role != "user" {
      return;
    }
    i := 0;
    while i < last
      invariant 0 <= i <= last
      invariant forall k :: 0 <= k < i ==> !(keep[k] && turns[k].role == "user" && turns[k].text == turns[last].text)
    {
      if keep[i] && turns[i].role == "user" && turns[i].text == turns[last].text {
        assert keep[..][i];
        keep[last] := false;
        return;
      }
      i := i + 1;
    }
  }

  lemma LastKeptIs(mask: seq<bool>, last: int)
    requires -1 <= last < |mask|
    requires last >= 0 ==> mask[last]
    requires forall k :: last < k < |mask| ==> !mask[k]
    ensures LastKept(mask) == last
  {
  }

  // ---------------------------------------------------------------- no adjacent echoes remain

  predicate NoAdjacentEchoes(turns: seq<TextTurn>) {
    forall i :: 0 <= i < |turns| - 1 ==> turns[i] != turns[i+1]
  }

  lemma {:induction false} SelectLast(turns: seq<TextTurn>, mask: seq<bool>)
    requires |turns| == |mask|
    ensures LastKept(mask) < 0 ==> Select(turns, mask) == []
    ensures LastKept(mask) >= 0 ==>
      Select(turns, mask) == Select(turns, mask[LastKept(mask) := false]) + [turns[LastKept(mask)]]
  {
    if mask != [] {
      var n := |mask| - 1;
      if mask[n] {
        assert mask[n := false][..n] == mask[..n];
      } else {
        SelectLast(turns[..n], mask[..n]);
        var p := LastKept(mask);
        if p >= 0 {
          assert mask[p := false][..n] == mask[..n][p := false];
        }
      }
    }
  }

  lemma SeparatedSnoc(s: seq<TextTurn>, t: TextTurn)
    ensures NoAdjacentEchoes(s + [t]) <==> NoAdjacentEchoes(s) && (s != [] ==> s[|s|-1] != t)
  {
    var r := s + [t];
    if NoAdjacentEchoes(r) {
      forall i | 0 <= i < |s| - 1 ensures s[i] != s[i+1] {
        assert r[i] != r[i+1];
      }
      assert s != [] ==> r[|s|-1] != r[|s|-1+1];
    }
  }

  lemma {:induction false} EchoPassSeparates(turns: seq<TextTurn>, keep: seq<bool>, n: nat)
    requires n <= |turns| == |keep|
    ensures NoAdjacentEchoes(Select(turns[..n], EchoMask(turns, keep, n)))
  {
    if n > 0 {
      EchoPassSeparates(turns, keep, n - 1);
      EchoStepSeparates(turns, keep, n - 1);
    }
  }

  lemma EchoStepSeparates(turns: seq<TextTurn>, keep: seq<bool>, n: nat)
    requires n < |turns| == |keep|
    requires NoAdjacentEchoes(Select(turns[..n], EchoMask(turns, keep, n)))
    ensures NoAdjacentEchoes(Select(turns[..n+1], EchoMask(turns, keep, n + 1)))
  {
    EchoStep(turns, keep, n);
    hide NoAdjacentEchoes, EchoMask, Select, LastKept;
    var front := EchoMask(turns, keep, n);
    var prev := LastKept(front);
    var kept := keep[n] && !(prev >= 0 && turns[prev] == turns[n]);
    SelectSnoc(turns, front, n, kept);
    if kept {
      LastSelected(turns[..n], front);
      SeparatedSnoc(Select(turns[..n], front), turns[n]);
    }
  }

  lemma LastSelected(turns: seq<TextTurn>, mask: seq<bool>)
    requires |turns| == |mask|
    ensures LastKept(mask) < 0 ==> Select(turns, mask) == []
    ensures LastKept(mask) >= 0 ==> Select(turns, mask) != [] && Select(turns, mask)[|Select(turns, mask)|-1] == turns[LastKept(mask)]
  {
    SelectLast(turns, mask);
  }

  lemma SelectSnoc<T>(s: seq<T>, front: seq<bool>, n: nat, b: bool)
    requires |front| == n < |s|
    ensures Select(s[..n+1], front + [b]) == if b then Select(s[..n], front) + [s[n]] else Select(s[..n], front)
  {
    assert s[..n+1][..n] == s[..n] && (front + [b])[..n] == front;
  }

  /** After all three passes no two consecutive turns have equal role and text. */
  lemma RepairLeavesNoEchoes<T>(turns: seq<TextTurn>, ids: seq<T>)
    ensures NoAdjacentEchoes(Select(turns, TurnMask(turns, ids)))
  {
    hide NoAdjacentEchoes, BlockPass, EchoMask;
    var mask := EchoMask(turns, BlockPass(turns, ids), |turns|);
    EchoPassSeparates(turns, BlockPass(turns, ids), |turns|);
    assert turns[..|turns|] == turns;
    if TrailingEcho(turns, mask) {
      var last := LastKept(mask);
      SelectLast(turns, mask);
      SeparatedSnoc(Select(turns, mask[last := false]), turns[last]);
    }
  }

  // ---------------------------------------------------------------- no content is lost

  /** Some turn equal to `t` survives. */
  predicate Survives(turns: seq<TextTurn>, mask: seq<bool>, t: TextTurn)
    requires |turns| == |mask|
  {
    exists k :: 0 <= k < |turns| && mask[k] && turns[k] == t
  }

  lemma BlockPassSurvives<T>(turns: seq<TextTurn>, ids: seq<T>, j: nat)
    requires Aligned(turns, ids) && j < |turns|
    ensures Survives(turns, BlockPass(turns, ids), turns[j])
  {
    var k := FirstAt(ids, ids[j]);
    FirstOccurrenceKept(turns, ids, k);
    assert BlockPass(turns, ids)[k] == KeptFrom(turns, ids, 0, k);
  }

  lemma {:induction false} EchoPassSurvives(turns: seq<TextTurn>, keep: seq<bool>, n: nat, j: nat)
    requires j < n <= |turns| == |keep| && keep[j]
    ensures Survives(turns[..n], EchoMask(turns, keep, n), turns[j])
  {
    var front, mask := EchoMask(turns, keep, n - 1), EchoMask(turns, keep, n);
    if j < n - 1 {
      EchoPassSurvives(turns, keep, n - 1, j);
      var k :| 0 <= k < n - 1 && front[k] && turns[..n-1][k] == turns[j];
      assert mask[k] && turns[..n][k] == turns[j];
    } else if mask[j] {
      assert turns[..n][j] == turns[j];
    } else {
      var prev := LastKept(front);
      assert mask[prev] && turns[..n][prev] == turns[j];
    }
  }

  lemma TrailPassSurvives(turns: seq<TextTurn>, mask: seq<bool>, t: TextTurn)
    requires |turns| == |mask| && Survives(turns, mask, t)
    ensures Survives(turns, TrailMask(turns, mask), t)
  {
    var k :| 0 <= k < |turns| && mask[k] && turns[k] == t;
    if !TrailMask(turns, mask)[k] {
      var last := LastKept(mask);
      var i :| 0 <= i < last && mask[i] && turns[i].role == "user" && turns[i].text == turns[last].text;
      assert TrailMask(turns, mask)[i] && turns[i] == t;
    }
  }

  /** Every turn's role and text survive all three passes. */
  lemma NoContentLost<T>(turns: seq<TextTurn>, ids: seq<T>, j: nat)
    requires Aligned(turns, ids) && j < |turns|
    ensures Survives(turns, TurnMask(turns, ids), turns[j])
  {
    hide BlockPass, EchoMask, TrailMask;
    var keep := BlockPass(turns, ids);
    BlockPassSurvives(turns, ids, j);
    var k :| 0 <= k < |turns| && keep[k] && turns[k] == turns[j];
    EchoPassSurvives(turns, keep, |turns|, k);
    assert turns[..|turns|] == turns;
    TrailPassSurvives(turns, EchoMask(turns, keep, |turns|), turns[j]);
  }

  lemma {:induction false} InSelect<T>(s: seq<T>, mask: seq<bool>, x: T)
    requires |s| == |mask|
    ensures x in Select(s, mask) <==> exists k :: 0 <= k < |s| && mask[k] && s[k] == x
  {
    if s != [] {
      var n := |s| - 1;
      InSelect(s[..n], mask[..n], x);
      if exists k :: 0 <= k < |s| && mask[k] && s[k] == x {
        var k :| 0 <= k < |s| && mask[k] && s[k] == x;
        assert k < n ==> mask[..n][k] && s[..n][k] == x;
      }
      if x in Select(s[..n], mask[..n]) {
        var k :| 0 <= k < n && mask[..n][k] && s[..n][k] == x;
        assert mask[k] && s[k] == x;
      }
    }
  }

  /** The repaired conversation says exactly what the original said: the same set of turns. */
  lemma SameTurnSet(events: seq<ConvEvent>, norm: Normalizer, t: TextTurn)
    ensures t in Select(ExtractTextTurns(events, norm), KeepMaskOf(events, norm)) <==> t in ExtractTextTurns(events, norm)
  {
    var turns, mask := ExtractTextTurns(events, norm), KeepMaskOf(events, norm);
    IdentitiesAligned(events, norm);
    InSelect(turns, mask, t);
    if t in turns {
      var j :| 0 <= j < |turns| && turns[j] == t;
      NoContentLost(turns, Identities(events, norm), j);
    }
  }

  // ---------------------------------------------------------------- the trailing pass

  /** The trailing pass removes one question at a time, so it is not idempotent either. */
  lemma TrailingPassNotIdempotent()
    ensures var turns := [P, D, C, Q, P, C];
      var once := TrailMask(turns, [true, true, true, true, true, true]);
      once == [true, true, true, true, true, false] && TrailMask(turns, once) == [true, true, true, true, false, false]
  {
    var turns, once := [P, D, C, Q, P, C], [true, true, true, true, true, false];
    LastKeptIs([true, true, true, true, true, true], 5);
    LastKeptIs(once, 4);
    assert turns[2].role == "user" && turns[2].text == turns[5].text;
    assert turns[0].role == "user" && turns[0].text == turns[4].text;
  }

  /** The thread ends in a user turn that repeats an earlier user turn. */
  predicate EndsInEcho(turns: seq<TextTurn>) {
    turns != [] && turns[|turns|-1].role == "user" && turns[|turns|-1] in turns[..|turns|-1]
  }

  lemma SelectOne(turns: seq<TextTurn>, mask: seq<bool>)
    requires |turns| == |mask|
    ensures TrailingEcho(turns, mask) <==> EndsInEcho(Select(turns, mask))
    ensures TrailingEcho(turns, mask) ==>
              Select(turns, TrailMask(turns, mask)) == Select(turns, mask)[..|Select(turns, mask)|-1]
  {
    SelectLast(turns, mask);
    var last := LastKept(mask);
    if last >= 0 {
      var rest := mask[last := false];
      InSelect(turns, rest, turns[last]);
      if k :| 0 <= k < |turns| && rest[k] && turns[k] == turns[last] {
        assert k < last && mask[k];
      }
      if i :| 0 <= i < last && mask[i] && turns[i].role == "user" && turns[i].text == turns[last].text {
        assert turns[last].role == "user" ==> rest[i] && turns[i] == turns[last];
      }
    }
  }

  /** Running the trailing pass again changes nothing unless the last two surviving turns are both
      users' repeats of earlier ones. */
  lemma TrailingPassQuietIff(turns: seq<TextTurn>, mask: seq<bool>)
    requires |turns| == |mask|
    ensures var kept := Select(turns, mask);
      TrailMask(turns, TrailMask(turns, mask)) == TrailMask(turns, mask)
      <==> !(EndsInEcho(kept) && EndsInEcho(kept[..|kept|-1]))
  {
    hide EndsInEcho;
    var once := TrailMask(turns, mask);
    SelectOne(turns, mask);
    SelectOne(turns, once);
    if TrailingEcho(turns, once) {
      assert once[LastKept(once)] && !TrailMask(turns, once)[LastKept(once)];
    }
  }
}
