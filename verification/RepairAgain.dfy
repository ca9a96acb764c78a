/** Repairing a conversation a second time. */
module RepairAgain {
  import opened Options
  import opened ReplayBlocks
  import opened ReplayFacts
  import opened Transcript
  import opened KeepMask
  import opened CollapseEvents

  predicate AllKept(mask: seq<bool>) { forall j :: 0 <= j < |mask| ==> mask[j] }

  lemma {:induction false} SelectKeepsAllIff<T>(s: seq<T>, mask: seq<bool>)
    requires |s| == |mask|
    ensures |Select(s, mask)| == |s| <==> AllKept(mask)
  {
    if s != [] {
      var n := |s| - 1;
      SelectKeepsAllIff(s[..n], mask[..n]);
      assert AllKept(mask) <==> AllKept(mask[..n]) && mask[n];
    }
  }

  lemma LastOfAll(mask: seq<bool>)
    requires AllKept(mask)
    ensures LastKept(mask) == |mask| - 1
  {
  }

  /** The adjacent-echo pass drops nothing exactly when it was given everything and no neighbours are equal. */
  lemma {:induction false} EchoQuietIff(turns: seq<TextTurn>, keep: seq<bool>, n: nat)
    requires n <= |turns| == |keep|
    ensures AllKept(EchoMask(turns, keep, n)) <==> AllKept(keep[..n]) && NoAdjacentEchoes(turns[..n])
  {
    if n > 0 {
      hide EchoMask, NoAdjacentEchoes, LastKept, AllKept;
      var i := n - 1;
      EchoQuietIff(turns, keep, i);
      EchoStep(turns, keep, i);
      SeparatedSnoc(turns[..i], turns[i]);
      assert turns[..i] + [turns[i]] == turns[..n] && keep[..i] + [keep[i]] == keep[..n];
      AllKeptSnoc(keep[..i], keep[i]);
      var front := EchoMask(turns, keep, i);
      var prev := LastKept(front);
      AllKeptSnoc(front, keep[i] && !(prev >= 0 && turns[prev] == turns[i]));
      if AllKept(front) {
        LastOfAll(front);
      }
    } else {
      assert turns[..0] == [] && keep[..0] == [];
    }
  }

  lemma AllKeptSnoc(front: seq<bool>, b: bool)
    ensures AllKept(front + [b]) <==> AllKept(front) && b
  {
    var mask := front + [b];
    assert mask[|front|] == b;
    assert forall j :: 0 <= j < |front| ==> mask[j] == front[j];
  }

  /** No run repeats at its first occurrence, no neighbours are equal, and the end is no user's echo. */
  ghost predicate Quiet<T>(turns: seq<TextTurn>, ids: seq<T>) {
    && (forall i: nat, n: nat :: !RepeatsFirst(turns, ids, i, n))
    && NoAdjacentEchoes(turns) && !EndsInEcho(turns)
  }

  lemma BlockQuietIff<T>(turns: seq<TextTurn>, ids: seq<T>)
    requires |turns| == |ids|
    ensures AllKept(BlockPass(turns, ids)) <==> forall i: nat, n: nat :: !RepeatsFirst(turns, ids, i, n)
  {
    ScanQuietIff(turns, ids);
    hide RepeatsFirst;
    forall j | 0 <= j < |ids| ensures BlockPass(turns, ids)[j] == KeptFrom(turns, ids, 0, j) {
      BlockPassKeeps(turns, ids, j);
    }
  }

  lemma TrailQuietIff(turns: seq<TextTurn>, mask: seq<bool>)
    requires |turns| == |mask|
    ensures AllKept(TrailMask(turns, mask)) <==> AllKept(mask) && !EndsInEcho(turns)
  {
    SelectOne(turns, mask);
    if AllKept(mask) {
      SelectAll(turns, mask);
    }
    hide EndsInEcho;
    var last := LastKept(mask);
    if TrailingEcho(turns, mask) {
      assert !TrailMask(turns, mask)[last];
    }
  }

  /** The three passes keep every turn exactly when the thread is quiet. */
  lemma MaskQuietIff<T>(turns: seq<TextTurn>, ids: seq<T>)
    requires |turns| == |ids|
    ensures AllKept(TurnMask(turns, ids)) <==> Quiet(turns, ids)
  {
    hide BlockPass, EchoMask, TrailMask, AllKept, RepeatsFirst, NoAdjacentEchoes, EndsInEcho;
    var keep := BlockPass(turns, ids);
    BlockQuietIff(turns, ids);
    EchoQuietIff(turns, keep, |turns|);
    TrailQuietIff(turns, EchoMask(turns, keep, |turns|));
    assert turns[..|turns|] == turns && keep[..|turns|] == keep;
  }

  /** A repair leaves a conversation as it is exactly when its visible turns are quiet. */
  lemma RepairQuietIff(events: seq<ConvEvent>, norm: Normalizer)
    ensures Repaired(events, norm) == events <==> Quiet(ExtractTextTurns(events, norm), Identities(events, norm))
  {
    hide TurnMask, Quiet, AllKept, ExtractTextTurns, Identities, Repaired;
    IdentitiesAlign(events, norm);
    ChangedTogether(events, norm);
    SelectKeepsAllIff(ExtractTextTurns(events, norm), KeepMaskOf(events, norm));
    MaskQuietIff(ExtractTextTurns(events, norm), Identities(events, norm));
  }

  /** A second repair changes nothing exactly when, in the conversation the first one left, no run of
      identities repeats and the last turn is not a user's repeat of an earlier one. */
  lemma SecondRepairQuietIff(events: seq<ConvEvent>, norm: Normalizer)
    ensures var once := Repaired(events, norm);
      Repaired(once, norm) == once
      <==> (forall i: nat, n: nat :: !RepeatsFirst(ExtractTextTurns(once, norm), Identities(once, norm), i, n))
           && !EndsInEcho(ExtractTextTurns(once, norm))
  {
    hide RepeatsFirst, EndsInEcho, NoAdjacentEchoes, Repaired, ExtractTextTurns, Identities;
    RepairQuietIff(Repaired(events, norm), norm);
    RepairKeepsContent(events, norm, TextTurn("", ""));
  }

  /** The conversation after `n` repairs. */
  function RepairedTimes(events: seq<ConvEvent>, norm: Normalizer, n: nat): seq<ConvEvent>
    decreases n
  {
    if n == 0 then events else RepairedTimes(Repaired(events, norm), norm, n - 1)
  }

  lemma {:induction false} RepairedStays(events: seq<ConvEvent>, norm: Normalizer, n: nat)
    requires Repaired(events, norm) == events
    ensures RepairedTimes(events, norm, n) == events
    decreases n
  {
    hide Repaired;
    if n > 0 {
      RepairedStays(events, norm, n - 1);
    }
  }

  /** Repairing as often as there are events always reaches a conversation that no repair changes, and it
      says what the first one said. */
  lemma {:induction false} RepairsSettle(events: seq<ConvEvent>, norm: Normalizer, n: nat, t: TextTurn)
    requires n >= |events|
    ensures var last := RepairedTimes(events, norm, n);
      && Repaired(last, norm) == last
      && (t in ExtractTextTurns(last, norm) <==> t in ExtractTextTurns(events, norm))
    decreases n
  {
    RepairShortens(events, norm);
    hide Repaired, ExtractTextTurns;
    if Repaired(events, norm) == events {
      RepairedStays(events, norm, n);
    } else {
      RepairsSettle(Repaired(events, norm), norm, n - 1, t);
      RepairKeepsContent(events, norm, t);
    }
  }

  lemma RepairShortens(events: seq<ConvEvent>, norm: Normalizer)
    ensures Repaired(events, norm) == events || |Repaired(events, norm)| < |events|
  {
    hide KeepMaskOf, Collapsed;
    if |Repaired(events, norm)| == |events| {
      CollapsedUnchanged(events, norm, KeepMaskOf(events, norm));
    }
  }

  // ---------------------------------------------------------------- a conversation repaired twice

  /** A turn event with one text block. */
  function Say(t: TextTurn, time: int): ConvEvent {
    ConvEvent(EVENT_TYPE_TURN, t.role, [ContentBlock("text", t.text)], time, true, 0)
  }

  function AsIs(role: string, text: string): Option<string> { Some(text) }

  /** One event for each turn, each at its own time. */
  function Spoken(turns: seq<TextTurn>): seq<ConvEvent> {
    if turns == [] then [] else Spoken(turns[..|turns|-1]) + [Say(turns[|turns|-1], |turns|)]
  }

  predicate Speakable(turns: seq<TextTurn>) {
    forall t :: t in turns ==> t.role in {"user", "assistant"} && t.text != ""
  }

  lemma SayShows(t: TextTurn, time: int)
    requires Speakable([t])
    ensures TurnOf(Say(t, time), AsIs) == Some(t) && IsVisibleTurnEvent(Say(t, time), AsIs)
    ensures forall i: nat :: EventIdentity(Say(t, time), i) == Encoded(Say(t, time))
  {
    assert t in [t];
    var blocks := [ContentBlock("text", t.text)];
    assert blocks[..0] == [];
    assert JoinTextBlocks(blocks) == t.text;
  }

  lemma IdentitiesSnoc(events: seq<ConvEvent>, ev: ConvEvent, norm: Normalizer)
    ensures Identities(events + [ev], norm)
         == if IsVisibleTurnEvent(ev, norm) then Identities(events, norm) + [EventIdentity(ev, |events|)] else Identities(events, norm)
  {
    assert (events + [ev])[..|events|] == events;
  }

  lemma {:induction false} SpokenTurns(turns: seq<TextTurn>)
    requires Speakable(turns)
    ensures ExtractTextTurns(Spoken(turns), AsIs) == turns
    ensures |Identities(Spoken(turns), AsIs)| == |turns|
    ensures forall k :: 0 <= k < |turns| ==> Identities(Spoken(turns), AsIs)[k] == Encoded(Say(turns[k], k + 1))
  {
    if turns != [] {
      var front, t := turns[..|turns|-1], turns[|turns|-1];
      SpokenTurns(front);
      assert Speakable([t]);
      SayShows(t, |turns|);
      ExtractSnoc(Spoken(front), Say(t, |turns|), AsIs);
      IdentitiesSnoc(Spoken(front), Say(t, |turns|), AsIs);
      assert Spoken(turns) == Spoken(front) + [Say(t, |turns|)];
      hide TurnOf, IsVisibleTurnEvent, EventIdentity, Say, ExtractTextTurns, Identities, Spoken;
      assert turns == front + [t];
    }
  }

  /** A thread that repeats nothing but its last question loses exactly that. */
  lemma OnlyTheEndDrops(events: seq<ConvEvent>, norm: Normalizer)
    requires var turns := ExtractTextTurns(events, norm);
      && (forall i: nat, n: nat :: !RepeatsFirst(turns, Identities(events, norm), i, n))
      && NoAdjacentEchoes(turns) && EndsInEcho(turns)
    ensures var turns := ExtractTextTurns(events, norm);
      ExtractTextTurns(Repaired(events, norm), norm) == turns[..|turns|-1]
  {
    var turns, ids := ExtractTextTurns(events, norm), Identities(events, norm);
    IdentitiesAlign(events, norm);
    ProjectionsAgree(events, norm);
    hide Identities, Repaired, ExtractTextTurns, RepeatsFirst, BlockPass, EchoMask, LastKept, EndsInEcho, NoAdjacentEchoes,
         TrailMask, TrailingEcho;
    BlockQuietIff(turns, ids);
    EchoQuietIff(turns, BlockPass(turns, ids), |turns|);
    assert turns[..|turns|] == turns && BlockPass(turns, ids)[..|turns|] == BlockPass(turns, ids);
    var kept := EchoMask(turns, BlockPass(turns, ids), |turns|);
    SelectAll(turns, kept);
    SelectOne(turns, kept);
  }

  /** Distinct identities never repeat. */
  lemma NothingRepeats<T>(turns: seq<TextTurn>, ids: seq<T>)
    requires forall j, k :: 0 <= j < k < |ids| ==> ids[j] != ids[k]
    ensures forall i: nat, n: nat :: !RepeatsFirst(turns, ids, i, n)
  {
    forall i: nat | i < |ids| ensures FirstAt(ids, ids[i]) == i {
      FirstAtHere(ids, i);
    }
  }

  const TWO_ECHOES := [P, D, C, Q, P, C]

  lemma BothEndsEcho()
    ensures EndsInEcho(TWO_ECHOES) && EndsInEcho(TWO_ECHOES[..5]) && NoAdjacentEchoes(TWO_ECHOES) && Speakable(TWO_ECHOES)
  {
    assert TWO_ECHOES[..5][2] == C && TWO_ECHOES[..5][..4][0] == P;
  }

  /** Six turns that end in two users' repeats, each said at its own time: the first repair drops the last
      of them and the second one drops the other. */
  lemma SecondRepairDrops()
    ensures var once := Repaired(Spoken(TWO_ECHOES), AsIs);
      ExtractTextTurns(once, AsIs) == TWO_ECHOES[..5] && Repaired(once, AsIs) != once
  {
    hide RepeatsFirst, EndsInEcho, Repaired, Spoken, Identities, ExtractTextTurns, NoAdjacentEchoes;
    BothEndsEcho();
    SpokenTurns(TWO_ECHOES);
    NothingRepeats(TWO_ECHOES, Identities(Spoken(TWO_ECHOES), AsIs));
    OnlyTheEndDrops(Spoken(TWO_ECHOES), AsIs);
    RepairQuietIff(Repaired(Spoken(TWO_ECHOES), AsIs), AsIs);
  }
}
