/** The two projections of the repair, onto turns and onto events, and why they never disagree. */
module CollapseEvents {
  import opened ReplayBlocks
  import opened ReplayFacts
  import opened Transcript
  import opened KeepMask

  /** The events of a conversation that carry no visible turn. */
  function NonVisible(events: seq<ConvEvent>, norm: Normalizer): seq<ConvEvent> {
    if events == [] then []
    else NonVisible(events[..|events|-1], norm) + (if IsVisibleTurnEvent(events[|events|-1], norm) then [] else [events[|events|-1]])
  }

  /** The events left when the visible turns rejected by `keep` are removed. */
  function Collapsed(events: seq<ConvEvent>, norm: Normalizer, keep: seq<bool>): (out: seq<ConvEvent>)
    requires |ExtractTextTurns(events, norm)| <= |keep|
    ensures |out| <= |events|
  {
    if events == [] then []
    else
      var n := |events| - 1;
      var front := Collapsed(events[..n], norm, keep);
      var cursor := |ExtractTextTurns(events[..n], norm)|;
      if IsVisibleTurnEvent(events[n], norm) && !keep[cursor] then front else front + [events[n]]
  }

  /** The repaired event list. */
  function Repaired(events: seq<ConvEvent>, norm: Normalizer): seq<ConvEvent> {
    Collapsed(events, norm, KeepMaskOf(events, norm))
  }

  /** The repaired turn list. */
  function RepairedTurns(events: seq<ConvEvent>, norm: Normalizer): seq<TextTurn> {
    Select(ExtractTextTurns(events, norm), KeepMaskOf(events, norm))
  }

  method CollapseDuplicateConversationTurns(events: seq<ConvEvent>, norm: Normalizer) returns (out: seq<TextTurn>, changed: bool)
    ensures out == RepairedTurns(events, norm)
    ensures changed == (|out| != |ExtractTextTurns(events, norm)|)
  {
    var turns := ExtractTextTurns(events, norm);
    var keep := ConversationTurnKeepMask(events, norm);
    hide KeepMaskOf;
    out := [];
    for i := 0 to |turns|
      invariant out == Select(turns[..i], keep[..i])
    {
      assert turns[..i+1][..i] == turns[..i] && keep[..i+1][..i] == keep[..i];
      if keep[i] {
        out := out + [turns[i]];
      }
    }
    assert turns[..|turns|] == turns && keep[..|turns|] == keep[..];
    changed := |out| != |turns|;
  }

  /** The mask has an entry for every visible turn, so the cursor check never gives up. */
  method CollapseConversationEvents(events: seq<ConvEvent>, norm: Normalizer) returns (out: seq<ConvEvent>, changed: bool)
    ensures out == Repaired(events, norm)
    ensures changed == (|out| != |events|)
  {
    hide KeepMaskOf, Collapsed, ExtractTextTurns, IsVisibleTurnEvent, CollapsedTo;
    var keep := ConversationTurnKeepMask(events, norm);
    ghost var mask := keep[..];
    out := [];
    var cursor := 0;
    CollapseStart(events, norm, mask);
    for i := 0 to |events|
      modifies {}
      invariant CollapsedTo(events, norm, mask, i, cursor, out)
    {
      CollapseStep(events, norm, mask, i, cursor, out);
      var k := true;
      if IsVisibleTurnEvent(events[i], norm) {
        if cursor >= keep.Length {
          assert false;
          return events, false;
        }
        k := keep[cursor];
        cursor := cursor + 1;
      }
      if k {
        out := out + [events[i]];
      }
    }
    CollapseEnd(events, norm, mask, cursor, out);
    changed := |out| != |events|;
  }

  /** The first `i` events are collapsed, and the cursor stands past their visible turns. */
  ghost predicate CollapsedTo(events: seq<ConvEvent>, norm: Normalizer, mask: seq<bool>, i: nat, cursor: int, out: seq<ConvEvent>) {
    && i <= |events| && cursor == |ExtractTextTurns(events[..i], norm)| <= |mask|
    && out == Collapsed(events[..i], norm, mask)
  }

  lemma CollapseEnd(events: seq<ConvEvent>, norm: Normalizer, mask: seq<bool>, cursor: int, out: seq<ConvEvent>)
    requires CollapsedTo(events, norm, mask, |events|, cursor, out)
    requires mask == KeepMaskOf(events, norm)
    ensures out == Repaired(events, norm)
  {
    hide KeepMaskOf, Collapsed, ExtractTextTurns;
    assert events[..|events|] == events;
  }

  lemma CollapseStart(events: seq<ConvEvent>, norm: Normalizer, mask: seq<bool>)
    ensures CollapsedTo(events, norm, mask, 0, 0, [])
  {
  }

  /** What one more event does to the cursor and to the output. */
  lemma CollapseStep(events: seq<ConvEvent>, norm: Normalizer, mask: seq<bool>, i: nat, cursor: int, out: seq<ConvEvent>)
    requires i < |events| && |mask| == |ExtractTextTurns(events, norm)|
    requires CollapsedTo(events, norm, mask, i, cursor, out)
    ensures var visible := IsVisibleTurnEvent(events[i], norm);
      && 0 <= cursor && (visible ==> cursor < |mask|)
      && CollapsedTo(events, norm, mask, i + 1, if visible then cursor + 1 else cursor,
           if visible && !mask[cursor] then out else out + [events[i]])
  {
    NextTurnCounted(events, norm, i);
    CursorInside(events, norm, i);
    CursorInside(events, norm, i + 1);
    hide ExtractTextTurns, IsVisibleTurnEvent;
    assert events[..i+1][..i] == events[..i];
  }

  lemma NextTurnCounted(events: seq<ConvEvent>, norm: Normalizer, i: nat)
    requires i < |events|
    ensures |ExtractTextTurns(events[..i+1], norm)|
         == |ExtractTextTurns(events[..i], norm)| + (if IsVisibleTurnEvent(events[i], norm) then 1 else 0)
  {
    assert events[..i+1][..i] == events[..i];
  }

  lemma CursorInside(events: seq<ConvEvent>, norm: Normalizer, n: nat)
    requires n <= |events|
    ensures |ExtractTextTurns(events[..n], norm)| <= |ExtractTextTurns(events, norm)|
  {
    assert events == events[..n] + events[n..];
    ThreadGrows(events[..n], events[n..], norm);
  }

  // ---------------------------------------------------------------- the projections agree

  /** On the first `n` events, extracting after collapsing is selecting after extracting. */
  ghost predicate Commutes(events: seq<ConvEvent>, norm: Normalizer, keep: seq<bool>, n: nat) {
    && n <= |events| && |ExtractTextTurns(events[..n], norm)| <= |keep|
    && ExtractTextTurns(Collapsed(events[..n], norm, keep), norm)
       == Select(ExtractTextTurns(events[..n], norm), keep[..|ExtractTextTurns(events[..n], norm)|])
  }

  lemma {:induction false} CollapseCommutes(events: seq<ConvEvent>, norm: Normalizer, keep: seq<bool>, n: nat)
    requires n <= |events| && |keep| == |ExtractTextTurns(events, norm)|
    ensures Commutes(events, norm, keep, n)
  {
    if n == 0 {
      CollapseStart(events, norm, keep);
    } else {
      CollapseCommutes(events, norm, keep, n - 1);
      CommutesStep(events, norm, keep, n - 1);
    }
  }

  lemma CommutesStep(events: seq<ConvEvent>, norm: Normalizer, keep: seq<bool>, n: nat)
    requires n < |events| && |keep| == |ExtractTextTurns(events, norm)|
    requires Commutes(events, norm, keep, n)
    ensures Commutes(events, norm, keep, n + 1)
  {
    hide IsVisibleTurnEvent, ExtractTextTurns, Collapsed, Select, TurnOf;
    CursorInside(events, norm, n);
    CollapseStep(events, norm, keep, n, |ExtractTextTurns(events[..n], norm)|, Collapsed(events[..n], norm, keep));
    var ev, front := events[n], ExtractTextTurns(events[..n], norm);
    ExtractSnoc(Collapsed(events[..n], norm, keep), ev, norm);
    ExtractSnoc(events[..n], ev, norm);
    assert events[..n] + [ev] == events[..n+1];
    if IsVisibleTurnEvent(ev, norm) {
      SelectGrown(front, TurnOf(ev, norm).value, keep);
    }
  }

  lemma SelectGrown(turns: seq<TextTurn>, t: TextTurn, keep: seq<bool>)
    requires |turns| < |keep|
    ensures Select(turns + [t], keep[..|turns|+1])
         == if keep[|turns|] then Select(turns, keep[..|turns|]) + [t] else Select(turns, keep[..|turns|])
  {
    assert (turns + [t])[..|turns|] == turns && keep[..|turns|+1][..|turns|] == keep[..|turns|];
  }

  /** The repair's test for a visible turn and the store's extractor agree event by event. */
  lemma ExtractSnoc(events: seq<ConvEvent>, ev: ConvEvent, norm: Normalizer)
    ensures ExtractTextTurns(events + [ev], norm)
         == if IsVisibleTurnEvent(ev, norm) then ExtractTextTurns(events, norm) + [TurnOf(ev, norm).value] else ExtractTextTurns(events, norm)
    ensures IsVisibleTurnEvent(ev, norm) <==> TurnOf(ev, norm).Some?
  {
    assert (events + [ev])[..|events|] == events;
  }

  /** Extracting turns from the repaired events gives the repaired turns: the refusal never fires. */
  lemma ProjectionsAgree(events: seq<ConvEvent>, norm: Normalizer)
    ensures ExtractTextTurns(Repaired(events, norm), norm) == RepairedTurns(events, norm)
  {
    hide KeepMaskOf;
    var keep := KeepMaskOf(events, norm);
    CollapseCommutes(events, norm, keep, |events|);
    assert events[..|events|] == events;
    assert keep[..|ExtractTextTurns(events, norm)|] == keep;
  }

  /** No event without a visible turn is touched or moved, whatever the mask says. */
  lemma {:induction false} NonVisibleSurvive(events: seq<ConvEvent>, norm: Normalizer, keep: seq<bool>)
    requires |ExtractTextTurns(events, norm)| <= |keep|
    ensures NonVisible(Collapsed(events, norm, keep), norm) == NonVisible(events, norm)
  {
    if events != [] {
      var n := |events| - 1;
      NonVisibleSurvive(events[..n], norm, keep);
      var front := Collapsed(events[..n], norm, keep);
      assert (front + [events[n]])[..|front|] == front;
    }
  }

  /** `part` is what is left of `whole` when some of its events are taken out. */
  predicate Subsequence(part: seq<ConvEvent>, whole: seq<ConvEvent>) {
    if part == [] then true
    else whole != [] && (if part[|part|-1] == whole[|whole|-1] && Subsequence(part[..|part|-1], whole[..|whole|-1]) then true
                         else Subsequence(part, whole[..|whole|-1]))
  }

  /** Nothing is added or moved. */
  lemma {:induction false} CollapsedIsSubsequence(events: seq<ConvEvent>, norm: Normalizer, keep: seq<bool>)
    requires |ExtractTextTurns(events, norm)| <= |keep|
    ensures Subsequence(Collapsed(events, norm, keep), events)
  {
    if events != [] {
      var n := |events| - 1;
      CollapsedIsSubsequence(events[..n], norm, keep);
      var front := Collapsed(events[..n], norm, keep);
      assert (front + [events[n]])[..|front|] == front;
    }
  }

  lemma {:induction false} CollapsedUnchanged(events: seq<ConvEvent>, norm: Normalizer, keep: seq<bool>)
    requires |ExtractTextTurns(events, norm)| <= |keep|
    requires |Collapsed(events, norm, keep)| == |events|
    ensures Collapsed(events, norm, keep) == events
  {
    if events != [] {
      CollapsedUnchanged(events[..|events|-1], norm, keep);
    }
  }

  lemma {:induction false} LengthsDropTogether(events: seq<ConvEvent>, norm: Normalizer, keep: seq<bool>)
    requires |ExtractTextTurns(events, norm)| <= |keep|
    ensures |events| - |Collapsed(events, norm, keep)|
         == |ExtractTextTurns(events, norm)| - |Select(ExtractTextTurns(events, norm), keep[..|ExtractTextTurns(events, norm)|])|
  {
    if events != [] {
      var n := |events| - 1;
      LengthsDropTogether(events[..n], norm, keep);
      var c := |ExtractTextTurns(events[..n], norm)|;
      if IsVisibleTurnEvent(events[n], norm) {
        assert keep[..c+1][..c] == keep[..c];
        assert ExtractTextTurns(events, norm)[..c] == ExtractTextTurns(events[..n], norm);
      }
    }
  }

  /** The repair changes the events exactly when it changes the turns; otherwise both stay as they were. */
  lemma ChangedTogether(events: seq<ConvEvent>, norm: Normalizer)
    ensures |RepairedTurns(events, norm)| == |ExtractTextTurns(events, norm)| <==> Repaired(events, norm) == events
  {
    hide KeepMaskOf;
    var keep := KeepMaskOf(events, norm);
    LengthsDropTogether(events, norm, keep);
    assert keep[..|ExtractTextTurns(events, norm)|] == keep;
    if |Repaired(events, norm)| == |events| {
      CollapsedUnchanged(events, norm, keep);
    }
  }

  /** The set of visible (role, text) pairs is the same before and after. */
  lemma RepairKeepsContent(events: seq<ConvEvent>, norm: Normalizer, t: TextTurn)
    ensures t in ExtractTextTurns(Repaired(events, norm), norm) <==> t in ExtractTextTurns(events, norm)
    ensures NoAdjacentEchoes(ExtractTextTurns(Repaired(events, norm), norm))
  {
    ProjectionsAgree(events, norm);
    SameTurnSet(events, norm, t);
    RepairLeavesNoEchoes(ExtractTextTurns(events, norm), Identities(events, norm));
  }

  /** On whole threads: a turn the block pass drops stays dropped however the thread is extended. */
  lemma ExtendedThreadStaysDropped(events: seq<ConvEvent>, more: seq<ConvEvent>, norm: Normalizer, j: nat)
    requires j < |ExtractTextTurns(events, norm)|
    requires !BlockPass(ExtractTextTurns(events, norm), Identities(events, norm))[j]
    ensures j < |ExtractTextTurns(events + more, norm)|
    ensures !BlockPass(ExtractTextTurns(events + more, norm), Identities(events + more, norm))[j]
  {
    hide BlockPass, KeptFrom, ExtractTextTurns, Identities;
    IdentitiesAlign(events, norm);
    IdentitiesAlign(events + more, norm);
    ThreadGrows(events, more, norm);
    var turns, ids := ExtractTextTurns(events, norm), Identities(events, norm);
    var turns', ids' := ExtractTextTurns(events + more, norm), Identities(events + more, norm);
    assert turns' == turns + turns'[|turns|..] && ids' == ids + ids'[|ids|..];
    BlockPassKeeps(turns, ids, j);
    AppendNeverRestores(turns, turns'[|turns|..], ids, ids'[|ids|..], j);
    BlockPassKeeps(turns', ids', j);
  }

  lemma BlockPassKeeps<T>(turns: seq<TextTurn>, ids: seq<T>, j: nat)
    requires |turns| == |ids| && j < |ids|
    ensures BlockPass(turns, ids)[j] == KeptFrom(turns, ids, 0, j)
  {
  }
}
