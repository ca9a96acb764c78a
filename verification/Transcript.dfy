/** Conversation events, their visible text turns, and the identity each turn carries. */
module Transcript {
  import opened Options
  import opened ReplayBlocks

  datatype ContentBlock = ContentBlock(kind: string, text: string)

  /** A canonical conversation event.  `extra` is the rest of its encoded body. */
  datatype ConvEvent = ConvEvent(etype: string, role: string, content: seq<ContentBlock>, timestamp: int, encodable: bool, extra: int)

  /** The complete encoded body, or a placeholder no other event can have. */
  datatype Identity = Encoded(event: ConvEvent) | Unencodable(index: nat)

  /** Trims and filters the text of one turn; `None` hides the turn. */
  type Normalizer = (string, string) -> Option<string>

  const EVENT_TYPE_TURN := "turn"

  /** Joins the non-empty text blocks with a blank line. */
  function JoinTextBlocks(blocks: seq<ContentBlock>): string {
    if blocks == [] then ""
    else
      var front, last := JoinTextBlocks(blocks[..|blocks|-1]), blocks[|blocks|-1];
      if last.kind != "text" || last.text == "" then front
      else if front == "" then last.text
      else front + "\n\n" + last.text
  }

  lemma JoinOne(block: ContentBlock)
    ensures JoinTextBlocks([block]) == if block.kind == "text" then block.text else ""
  {
    assert [block][..0] == [];
  }

  /** Two texts, a blank line between them unless one is empty. */
  function Paragraphs(a: string, b: string): string {
    if a == "" then b else if b == "" then a else a + "\n\n" + b
  }

  /** Every text block counts, in order: the text of a longer content is that of its parts. */
  lemma {:induction false} JoinConcat(a: seq<ContentBlock>, b: seq<ContentBlock>)
    ensures JoinTextBlocks(a + b) == Paragraphs(JoinTextBlocks(a), JoinTextBlocks(b))
  {
    if b == [] {
      assert a + b == a;
    } else {
      var front, last := b[..|b|-1], b[|b|-1];
      assert (a + b)[..|a + b|-1] == a + front;
      JoinConcat(a, front);
      JoinSnoc(a + front, last);
      JoinSnoc(front, last);
      assert a + front + [last] == a + b && front + [last] == b;
      hide JoinTextBlocks;
      ParagraphsAssociate(JoinTextBlocks(a), JoinTextBlocks(front), if last.kind == "text" then last.text else "");
    }
  }

  lemma JoinSnoc(front: seq<ContentBlock>, last: ContentBlock)
    ensures JoinTextBlocks(front + [last]) == Paragraphs(JoinTextBlocks(front), if last.kind == "text" then last.text else "")
  {
    assert (front + [last])[..|front|] == front;
  }

  lemma ParagraphsAssociate(a: string, b: string, c: string)
    ensures Paragraphs(Paragraphs(a, b), c) == Paragraphs(a, Paragraphs(b, c))
  {
    assert (a + "\n\n" + b) + "\n\n" + c == a + "\n\n" + (b + "\n\n" + c);
  }

  /** The visible turn of an event, as the store's extractor computes it. */
  function TurnOf(ev: ConvEvent, norm: Normalizer): Option<TextTurn> {
    if ev.etype != EVENT_TYPE_TURN then None
    else if ev.role != "user" && ev.role != "assistant" then None
    else match norm(ev.role, JoinTextBlocks(ev.content))
      case None => None
      case Some(text) => Some(TextTurn(ev.role, text))
  }

  function ExtractTextTurns(events: seq<ConvEvent>, norm: Normalizer): (turns: seq<TextTurn>)
    ensures |turns| <= |events|
  {
    if events == [] then []
    else
      var front, last := ExtractTextTurns(events[..|events|-1], norm), TurnOf(events[|events|-1], norm);
      if last.Some? then front + [last.value] else front
  }

  /** The repair's own test for a visible turn. */
  predicate IsVisibleTurnEvent(ev: ConvEvent, norm: Normalizer) {
    if ev.etype != EVENT_TYPE_TURN then false
    else if ev.role != "user" && ev.role != "assistant" then false
    else norm(ev.role, JoinTextBlocks(ev.content)).Some?
  }

  function EventIdentity(ev: ConvEvent, index: nat): Identity {
    if ev.encodable then Encoded(ev) else Unencodable(index)
  }

  /** Which events show which turn. */
  lemma TurnShownIff(ev: ConvEvent, norm: Normalizer, t: TextTurn)
    ensures TurnOf(ev, norm) == Some(t)
      <==> ev.etype == "turn" && ev.role in {"user", "assistant"} && t.role == ev.role
           && norm(ev.role, JoinTextBlocks(ev.content)) == Some(t.text)
    ensures IsVisibleTurnEvent(ev, norm) <==> exists t :: TurnOf(ev, norm) == Some(t)
  {
    if IsVisibleTurnEvent(ev, norm) {
      assert TurnOf(ev, norm) == Some(TurnOf(ev, norm).value);
    }
  }

  /** Encoded events have one identity exactly when they are the same, timestamp and body; an unencodable
      one has an identity of its own. */
  lemma SameIdentityIff(a: ConvEvent, i: nat, b: ConvEvent, j: nat)
    ensures EventIdentity(a, i) == EventIdentity(b, j)
      <==> (a.encodable && b.encodable && a == b) || (!a.encodable && !b.encodable && i == j)
  {
  }

  /** One identity per visible turn. */
  function Identities(events: seq<ConvEvent>, norm: Normalizer): seq<Identity> {
    if events == [] then []
    else
      var n := |events| - 1;
      var front := Identities(events[..n], norm);
      if IsVisibleTurnEvent(events[n], norm) then front + [EventIdentity(events[n], n)] else front
  }

  lemma {:induction false} IdentitiesAlign(events: seq<ConvEvent>, norm: Normalizer)
    ensures |Identities(events, norm)| == |ExtractTextTurns(events, norm)|
  {
    if events != [] {
      IdentitiesAlign(events[..|events|-1], norm);
    }
  }

  method VisibleTurnIdentities(events: seq<ConvEvent>, norm: Normalizer, turnCount: nat) returns (ids: seq<Identity>)
    ensures |Identities(events, norm)| <= turnCount ==> ids == Identities(events, norm)
    ensures |Identities(events, norm)| > turnCount ==> ids == Identities(events, norm)[..turnCount]
  {
    ids := [];
    var i := 0;
    while i < |events|
      invariant 0 <= i <= |events|
      invariant |Identities(events[..i], norm)| <= turnCount ==> ids == Identities(events[..i], norm)
      invariant |Identities(events[..i], norm)| > turnCount ==> ids == Identities(events[..i], norm)[..turnCount]
    {
      assert events[..i+1][..i] == events[..i];
      if IsVisibleTurnEvent(events[i], norm) && |ids| < turnCount {
        ids := ids + [EventIdentity(events[i], i)];
      }
      i := i + 1;
    }
    assert events[..i] == events;
  }

  /** The event behind turn `k`. */
  lemma {:induction false} TurnEvent(events: seq<ConvEvent>, norm: Normalizer, k: nat) returns (e: nat)
    requires |Identities(events, norm)| == |ExtractTextTurns(events, norm)| && k < |Identities(events, norm)|
    ensures e < |events|
    ensures Identities(events, norm)[k] == EventIdentity(events[e], e)
    ensures TurnOf(events[e], norm) == Some(ExtractTextTurns(events, norm)[k])
    decreases |events|
  {
    var n := |events| - 1;
    IdentitiesAlign(events[..n], norm);
    if k < |Identities(events[..n], norm)| {
      e := TurnEvent(events[..n], norm, k);
    } else {
      e := n;
    }
  }

  /** Equal identities mean equal turns. */
  ghost predicate Aligned<T>(turns: seq<TextTurn>, ids: seq<T>) {
    |turns| == |ids| && forall j, k :: 0 <= j < |ids| && 0 <= k < |ids| && ids[j] == ids[k] ==> turns[j] == turns[k]
  }

  lemma IdentitiesAligned(events: seq<ConvEvent>, norm: Normalizer)
    ensures Aligned(ExtractTextTurns(events, norm), Identities(events, norm))
  {
    IdentitiesAlign(events, norm);
    var turns, ids := ExtractTextTurns(events, norm), Identities(events, norm);
    forall j, k | 0 <= j < |ids| && 0 <= k < |ids| && ids[j] == ids[k] ensures turns[j] == turns[k] {
      var e := TurnEvent(events, norm, j);
      var f := TurnEvent(events, norm, k);
    }
  }

  /** A longer thread keeps the turns and identities of the shorter one as a prefix. */
  lemma {:induction false} ThreadGrows(events: seq<ConvEvent>, more: seq<ConvEvent>, norm: Normalizer)
    ensures ExtractTextTurns(events, norm) <= ExtractTextTurns(events + more, norm)
    ensures Identities(events, norm) <= Identities(events + more, norm)
  {
    if more == [] {
      assert events + more == events;
    } else {
      var n := |more| - 1;
      assert (events + more)[..|events|+n] == events + more[..n];
      ThreadGrows(events, more[..n], norm);
    }
  }

  // ---------------------------------------------------------------- turns and their events

  /** Where the events with a visible turn are. */
  function TurnPositions(events: seq<ConvEvent>, norm: Normalizer): (p: seq<nat>)
    ensures forall k :: 0 <= k < |p| ==> p[k] < |events| && IsVisibleTurnEvent(events[p[k]], norm)
  {
    if events == [] then []
    else
      var n := |events| - 1;
      TurnPositions(events[..n], norm) + (if IsVisibleTurnEvent(events[n], norm) then [n] else [])
  }

  /** In order, each turn and each identity is that of one visible event, and no visible event is passed over. */
  lemma {:induction false} TurnsAreEvents(events: seq<ConvEvent>, norm: Normalizer)
    ensures var p, turns, ids := TurnPositions(events, norm), ExtractTextTurns(events, norm), Identities(events, norm);
      && |p| == |turns| == |ids|
      && (forall k :: 0 <= k < |p| ==> TurnOf(events[p[k]], norm) == Some(turns[k]) && ids[k] == EventIdentity(events[p[k]], p[k]))
      && (forall j, k :: 0 <= j < k < |p| ==> p[j] < p[k])
      && (forall e: nat :: e < |events| && IsVisibleTurnEvent(events[e], norm) ==> e in p)
  {
    if events != [] {
      hide JoinTextBlocks, EventIdentity;
      TurnsAreEvents(events[..|events|-1], norm);
    }
  }

  /** Two turns have one identity exactly when they are one turn or their events are encoded the same. */
  lemma TurnsMatchIff(events: seq<ConvEvent>, norm: Normalizer, j: nat, k: nat)
    requires j < |TurnPositions(events, norm)| && k < |TurnPositions(events, norm)|
    ensures |Identities(events, norm)| == |TurnPositions(events, norm)|
    ensures var a, b := events[TurnPositions(events, norm)[j]], events[TurnPositions(events, norm)[k]];
      Identities(events, norm)[j] == Identities(events, norm)[k] <==> j == k || (a.encodable && a == b)
  {
    TurnsAreEvents(events, norm);
    hide TurnPositions, Identities, ExtractTextTurns;
    var p := TurnPositions(events, norm);
    SameIdentityIff(events[p[j]], p[j], events[p[k]], p[k]);
    assert j < k ==> p[j] < p[k];
    assert k < j ==> p[k] < p[j];
  }
}
