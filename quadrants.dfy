/**
 * The legacy dashboard layout: free-floating quadrants positioned in
 * percentages of the canvas, each holding a list of cards, with card moves
 * between quadrants and clamped quadrant moves and resizes.
 */
module Quadrants {
  import opened Wrappers
  import opened Js

  /** A card inside a quadrant: its id and its other fields. */
  datatype QCard = QCard(id: string, info: Obj)

  /** A quadrant; geometry is in percent of the canvas. */
  datatype Quadrant = Quadrant(id: string, title: string, cards: seq<QCard>,
                               x: real, y: real, width: real, height: real, collapsed: bool)

  /** A `Partial<Quadrant>`: the fields present in an update. */
  datatype Patch = Patch(id: Option<string>, title: Option<string>, cards: Option<seq<QCard>>,
                         x: Option<real>, y: Option<real>, width: Option<real>, height: Option<real>,
                         collapsed: Option<bool>)

  const NoChange: Patch := Patch(None, None, None, None, None, None, None, None)

  function Pick<T>(o: Option<T>, old_: T): T {
    if o.Some? then o.value else old_
  }

  /** `{...q, ...updates}`. */
  function ApplyPatch(q: Quadrant, p: Patch): Quadrant {
    Quadrant(Pick(p.id, q.id), Pick(p.title, q.title), Pick(p.cards, q.cards),
             Pick(p.x, q.x), Pick(p.y, q.y), Pick(p.width, q.width), Pick(p.height, q.height),
             Pick(p.collapsed, q.collapsed))
  }

  /** `clamp(val, min, max)`. */
  function Clamp(v: real, lo: real, hi: real): real {
    if hi <= v then (if lo >= hi then lo else hi) else (if lo >= v then lo else v)
  }

  /** The clamp lands in `[lo, hi]` when that range is non-empty, leaves values inside it alone, and is `lo` otherwise. */
  lemma {:induction false} ClampSpec(v: real, lo: real, hi: real)
    ensures lo <= hi ==> lo <= Clamp(v, lo, hi) <= hi
    ensures lo <= v <= hi ==> Clamp(v, lo, hi) == v
    ensures hi < lo ==> Clamp(v, lo, hi) == lo
  {
  }

  /** `updateQuadrant`: the update is merged into every quadrant with the id, and only into those. */
  function UpdateQuadrant(qs: seq<Quadrant>, id: string, p: Patch): (r: seq<Quadrant>)
    ensures |r| == |qs|
    ensures forall i :: 0 <= i < |qs| ==> r[i] == if qs[i].id == id then ApplyPatch(qs[i], p) else qs[i]
  {
    seq(|qs|, i requires 0 <= i < |qs| => if qs[i].id == id then ApplyPatch(qs[i], p) else qs[i])
  }

  /** `qs.find(q => q.id === id)`. */
  function FindQuadrant(qs: seq<Quadrant>, id: string): (r: Option<nat>)
    ensures r.Some? ==> r.value < |qs| && qs[r.value].id == id
    ensures r.None? <==> forall i :: 0 <= i < |qs| ==> qs[i].id != id
  {
    if qs == [] then None
    else if qs[0].id == id then Some(0)
    else match FindQuadrant(qs[1..], id)
         case None => None
         case Some(i) => Some(i + 1)
  }

  /** `cards.find(c => c.id === id)`. */
  function FindCard(cards: seq<QCard>, id: string): (r: Option<QCard>)
    ensures r.Some? ==> r.value in cards && r.value.id == id
    ensures r.None? <==> forall i :: 0 <= i < |cards| ==> cards[i].id != id
  {
    if cards == [] then None
    else if cards[0].id == id then Some(cards[0])
    else FindCard(cards[1..], id)
  }

  /** The card found is the first one with the id. */
  lemma {:induction false} FindCardFirst(cards: seq<QCard>, id: string, k: nat)
    requires k < |cards| && cards[k].id == id
    requires forall j :: 0 <= j < k ==> cards[j].id != id
    ensures FindCard(cards, id) == Some(cards[k])
  {
    if k > 0 {
      forall j | 0 <= j < k - 1 ensures cards[1..][j].id != id {
        assert cards[1..][j] == cards[j + 1];
      }
      FindCardFirst(cards[1..], id, k - 1);
    }
  }

  /** `cards.filter(c => c.id !== id)`. */
  function RemoveCard(cards: seq<QCard>, id: string): (r: seq<QCard>)
    ensures forall c :: c in r <==> c in cards && c.id != id
  {
    if cards == [] then []
    else
      assert forall c :: c in cards <==> c == cards[0] || c in cards[1..];
      if cards[0].id != id then [cards[0]] + RemoveCard(cards[1..], id) else RemoveCard(cards[1..], id)
  }

  /**
   * The filter keeps the kept cards in their order and with their copies: the
   * result for a concatenation is the results for its parts in turn, and a
   * single card is kept exactly when its id differs.
   */
  lemma {:induction false} RemoveCardAppend(a: seq<QCard>, b: seq<QCard>, id: string)
    ensures RemoveCard(a + b, id) == RemoveCard(a, id) + RemoveCard(b, id)
    decreases |a|
  {
    if a == [] {
      assert a + b == b;
    } else {
      assert (a + b)[1..] == a[1..] + b;
      RemoveCardAppend(a[1..], b, id);
    }
  }

  lemma {:induction false} RemoveCardSingle(c: QCard, id: string)
    ensures RemoveCard([c], id) == if c.id == id then [] else [c]
  {
    assert [c][1..] == [];
  }

  /** How many cards carry the id. */
  function CountCard(cards: seq<QCard>, id: string): nat {
    if cards == [] then 0 else (if cards[0].id == id then 1 else 0) + CountCard(cards[1..], id)
  }

  /** Removing a card by id removes exactly its copies. */
  lemma {:induction false} RemoveCardLength(cards: seq<QCard>, id: string)
    ensures |RemoveCard(cards, id)| == |cards| - CountCard(cards, id)
  {
    if cards != [] {
      RemoveCardLength(cards[1..], id);
    }
  }

  /** A card whose id occurs at one index only is counted once. */
  lemma {:induction false} CountUnique(cards: seq<QCard>, id: string, k: nat)
    requires k < |cards| && cards[k].id == id
    requires forall j :: 0 <= j < |cards| && j != k ==> cards[j].id != id
    ensures CountCard(cards, id) == 1
  {
    if k == 0 {
      CountAbsent(cards[1..], id);
    } else {
      assert cards[0].id != id;
      forall j | 0 <= j < |cards[1..]| && j != k - 1 ensures cards[1..][j].id != id {
        assert cards[1..][j] == cards[j + 1];
      }
      CountUnique(cards[1..], id, k - 1);
    }
  }

  lemma {:induction false} CountAbsent(cards: seq<QCard>, id: string)
    requires forall j :: 0 <= j < |cards| ==> cards[j].id != id
    ensures CountCard(cards, id) == 0
  {
    if cards != [] {
      assert cards[0].id != id;
      CountAbsent(cards[1..], id);
    }
  }

  /** The quadrant list after `card` left `fromId` for `toId` (the source branch is tested first). */
  function MoveBetween(qs: seq<Quadrant>, toId: string, cardId: string, fromId: string, card: QCard): (r: seq<Quadrant>)
    ensures |r| == |qs|
  {
    seq(|qs|, i requires 0 <= i < |qs| =>
      if qs[i].id == fromId then qs[i].(cards := RemoveCard(qs[i].cards, cardId))
      else if qs[i].id == toId then qs[i].(cards := qs[i].cards + [card])
      else qs[i])
  }

  /**
   * `handleCardDrop`: nothing changes unless both quadrants exist and the
   * (first) source quadrant holds the card; then the card is taken out of every
   * source quadrant and appended to every target quadrant.
   */
  function HandleCardDrop(qs: seq<Quadrant>, toId: string, cardId: string, fromId: string): seq<Quadrant> {
    match (FindQuadrant(qs, fromId), FindQuadrant(qs, toId))
    case (Some(f), Some(_)) =>
      (match FindCard(qs[f].cards, cardId)
       case Some(card) => MoveBetween(qs, toId, cardId, fromId, card)
       case None => qs)
    case _ => qs
  }

  /** A drop with a missing quadrant, or a card the source does not hold, changes nothing. */
  lemma {:induction false} DropNoOp(qs: seq<Quadrant>, toId: string, cardId: string, fromId: string)
    requires (forall i :: 0 <= i < |qs| ==> qs[i].id != fromId)
          || (forall i :: 0 <= i < |qs| ==> qs[i].id != toId)
          || (exists f :: 0 <= f < |qs| && qs[f].id == fromId
                && (forall j :: 0 <= j < f ==> qs[j].id != fromId)
                && forall j :: 0 <= j < |qs[f].cards| ==> qs[f].cards[j].id != cardId)
    ensures HandleCardDrop(qs, toId, cardId, fromId) == qs
  {
    if FindQuadrant(qs, fromId).Some? && FindQuadrant(qs, toId).Some? {
      var f := FindQuadrant(qs, fromId).value;
      var f' :| 0 <= f' < |qs| && qs[f'].id == fromId
                && (forall j :: 0 <= j < f' ==> qs[j].id != fromId)
                && forall j :: 0 <= j < |qs[f'].cards| ==> qs[f'].cards[j].id != cardId;
      FirstIndexUnique(qs, fromId, f, f');
    }
  }

  /** `FindQuadrant` returns the first index with the id. */
  lemma {:induction false} FirstIndexUnique(qs: seq<Quadrant>, id: string, f: nat, g: nat)
    requires FindQuadrant(qs, id) == Some(f)
    requires g < |qs| && qs[g].id == id && forall j :: 0 <= j < g ==> qs[j].id != id
    ensures f == g
  {
    FindQuadrantFirst(qs, id);
  }

  lemma {:induction false} FindQuadrantFirst(qs: seq<Quadrant>, id: string)
    ensures FindQuadrant(qs, id).Some? ==> forall j :: 0 <= j < FindQuadrant(qs, id).value ==> qs[j].id != id
  {
    if qs != [] && qs[0].id != id {
      FindQuadrantFirst(qs[1..], id);
    }
  }

  /**
   * A drop between two different quadrants that both exist, when the (first)
   * source quadrant holds the card, changes the layout: the source's cards
   * become `RemoveCard` of them (no card with the id is left, the others keep
   * their order), the target gains at its end the first card with the
   * id found in the source and keeps its old cards in front, and every other
   * quadrant is unchanged.
   */
  lemma {:induction false} DropMovesCard(qs: seq<Quadrant>, toId: string, cardId: string, fromId: string, i: nat)
    requires fromId != toId && i < |qs|
    requires FindQuadrant(qs, fromId).Some? && FindQuadrant(qs, toId).Some?
    requires FindCard(qs[FindQuadrant(qs, fromId).value].cards, cardId).Some?
    ensures var r := HandleCardDrop(qs, toId, cardId, fromId);
            var card := FindCard(qs[FindQuadrant(qs, fromId).value].cards, cardId).value;
            |r| == |qs| && r != qs
            && (qs[i].id == fromId ==>
                  r[i] == qs[i].(cards := RemoveCard(qs[i].cards, cardId))
                  && forall c :: c in r[i].cards <==> c in qs[i].cards && c.id != cardId)
            && (qs[i].id == toId ==>
                  r[i] == qs[i].(cards := r[i].cards)
                  && r[i].cards == qs[i].cards + [card])
            && (qs[i].id != fromId && qs[i].id != toId ==> r[i] == qs[i])
  {
    var r := HandleCardDrop(qs, toId, cardId, fromId);
    var f := FindQuadrant(qs, fromId).value;
    var card := FindCard(qs[f].cards, cardId).value;
    assert card in qs[f].cards && card !in r[f].cards;
  }

  /** The total number of cards over all quadrants. */
  function TotalCards(qs: seq<Quadrant>): nat {
    if qs == [] then 0 else |qs[0].cards| + TotalCards(qs[1..])
  }

  lemma {:induction false} TotalCardsUpdate(qs: seq<Quadrant>, i: nat, q: Quadrant)
    requires i < |qs|
    ensures TotalCards(qs[i := q]) == TotalCards(qs) - |qs[i].cards| + |q.cards|
  {
    if i == 0 {
      assert qs[i := q][1..] == qs[1..];
    } else {
      assert qs[i := q][1..] == qs[1..][i - 1 := q];
      TotalCardsUpdate(qs[1..], i - 1, q);
    }
  }

  /** Quadrant ids are distinct. */
  predicate UniqueIds(qs: seq<Quadrant>) {
    forall i, j :: 0 <= i < j < |qs| ==> qs[i].id != qs[j].id
  }

  /**
   * Between two different quadrants with distinct ids, and a card id held once
   * in the source, a drop keeps the total number of cards.
   */
  lemma {:induction false} DropPreservesCount(qs: seq<Quadrant>, toId: string, cardId: string, fromId: string)
    requires fromId != toId && UniqueIds(qs)
    requires forall f :: 0 <= f < |qs| && qs[f].id == fromId ==>
               forall j, k :: 0 <= j < k < |qs[f].cards| ==> qs[f].cards[j].id != qs[f].cards[k].id
    ensures TotalCards(HandleCardDrop(qs, toId, cardId, fromId)) == TotalCards(qs)
  {
    var r := HandleCardDrop(qs, toId, cardId, fromId);
    if r != qs {
      var a := FindQuadrant(qs, fromId).value;
      var b := FindQuadrant(qs, toId).value;
      var card := FindCard(qs[a].cards, cardId).value;
      var cards := qs[a].cards;
      var k :| 0 <= k < |cards| && cards[k] == card;
      forall j | 0 <= j < |cards| && j != k ensures cards[j].id != cardId {
        if j < k { assert cards[j].id != cards[k].id; } else { assert cards[k].id != cards[j].id; }
      }
      CountUnique(cards, cardId, k);
      RemoveCardLength(cards, cardId);
      var A := qs[a].(cards := RemoveCard(cards, cardId));
      var B := qs[b].(cards := qs[b].cards + [card]);
      assert r == qs[a := A][b := B] by {
        forall i | 0 <= i < |qs| ensures r[i] == qs[a := A][b := B][i] {
          if i != a { assert qs[i].id != qs[a].id by { if i < a {} else {} } }
          if i != b { assert qs[i].id != qs[b].id by { if i < b {} else {} } }
        }
      }
      TotalCardsUpdate(qs, a, A);
      TotalCardsUpdate(qs[a := A], b, B);
    }
  }

  /**
   * Dropping a card onto its own quadrant takes the source branch only, so the
   * card disappears from it; the drop target's guard keeps this from happening.
   */
  lemma {:induction false} SelfDropLosesCard(qs: seq<Quadrant>, id: string, cardId: string, i: nat, card: QCard)
    requires UniqueIds(qs) && i < |qs| && qs[i].id == id
    requires card in qs[i].cards && card.id == cardId
    ensures var r := HandleCardDrop(qs, id, cardId, id);
            |r| == |qs| && forall c :: c in r[i].cards ==> c.id != cardId
  {
    var f := FindQuadrant(qs, id).value;
    assert f == i by { if f < i {} else if f > i {} }
  }

  /** The drop target's handler: only enabled drops from another quadrant reach `handleCardDrop`. */
  function OnDrop(qs: seq<Quadrant>, targetId: string, cardId: string, fromId: string, enableDragDrop: bool, hasHandler: bool): (r: seq<Quadrant>)
    ensures fromId == targetId || !enableDragDrop || !hasHandler ==> r == qs
  {
    if !enableDragDrop || !hasHandler || fromId == targetId then qs
    else HandleCardDrop(qs, targetId, cardId, fromId)
  }

  /** What `onCardMoved` is called with after a drop: `(cardId, fromId, toId)`, whenever the callback is set. */
  function DropNotice(toId: string, cardId: string, fromId: string, hasOnCardMoved: bool): (n: Option<(string, string, string)>)
    ensures n.Some? <==> hasOnCardMoved
  {
    if hasOnCardMoved then Some((cardId, fromId, toId)) else None
  }

  /**
   * `handleCardDrop` as a whole: the new layout, and the notification, which
   * is sent after the update is scheduled and does not depend on its outcome.
   */
  function CardDrop(qs: seq<Quadrant>, toId: string, cardId: string, fromId: string, hasOnCardMoved: bool): (seq<Quadrant>, Option<(string, string, string)>) {
    (HandleCardDrop(qs, toId, cardId, fromId), DropNotice(toId, cardId, fromId, hasOnCardMoved))
  }

  /**
   * A drop the layout ignores (here: a card the source does not hold) still
   * tells the parent that the card moved.
   */
  lemma {:induction false} IgnoredDropStillNotifies(qs: seq<Quadrant>, toId: string, cardId: string, f: nat)
    requires f < |qs| && forall j :: 0 <= j < |qs[f].cards| ==> qs[f].cards[j].id != cardId
    requires forall j :: 0 <= j < f ==> qs[j].id != qs[f].id
    ensures CardDrop(qs, toId, cardId, qs[f].id, true) == (qs, Some((cardId, qs[f].id, toId)))
  {
    DropNoOp(qs, toId, cardId, qs[f].id);
  }

  /** Behind the guard, a drop never changes the number of cards (ids distinct as above). */
  lemma {:induction false} GuardedDropPreservesCount(qs: seq<Quadrant>, targetId: string, cardId: string, fromId: string, enableDragDrop: bool, hasHandler: bool)
    requires UniqueIds(qs)
    requires forall f :: 0 <= f < |qs| && qs[f].id == fromId ==>
               forall j, k :: 0 <= j < k < |qs[f].cards| ==> qs[f].cards[j].id != qs[f].cards[k].id
    ensures TotalCards(OnDrop(qs, targetId, cardId, fromId, enableDragDrop, hasHandler)) == TotalCards(qs)
  {
    if enableDragDrop && hasHandler && fromId != targetId {
      DropPreservesCount(qs, targetId, cardId, fromId);
    }
  }

  /** The quadrant `addQuadrant` appends when there are already `n`. */
  function NewQuadrant(newId: string, n: nat): Quadrant {
    var offset := (10 + (n * 5) % 50) as real;
    Quadrant(newId, "Quadrant " + NatToString(n + 1), [], offset, offset, 30.0, 30.0, false)
  }

  /** `addQuadrant`; the fresh id (built from the clock) is a parameter. */
  function AddQuadrant(qs: seq<Quadrant>, newId: string): (r: seq<Quadrant>)
    ensures |r| == |qs| + 1 && r[..|qs|] == qs
  {
    qs + [NewQuadrant(newId, |qs|)]
  }

  /** The new quadrant is empty, 30 × 30, staggered diagonally inside `[10, 55]` and therefore on the canvas. */
  lemma {:induction false} AddQuadrantSpec(qs: seq<Quadrant>, newId: string)
    ensures var q := AddQuadrant(qs, newId)[|qs|];
            q.id == newId && q.cards == [] && q.width == 30.0 && q.height == 30.0
            && q.x == q.y && 10.0 <= q.x <= 55.0 && q.x + q.width <= 100.0
            && q.x == (10 + (|qs| * 5) % 50) as real
  {
  }

  /** `removeQuadrant`: `qs.filter(q => q.id !== id)`. */
  function RemoveQuadrant(qs: seq<Quadrant>, id: string): (r: seq<Quadrant>)
    ensures forall q :: q in r <==> q in qs && q.id != id
    ensures |r| <= |qs|
  {
    if qs == [] then []
    else
      assert forall q :: q in qs <==> q == qs[0] || q in qs[1..];
      if qs[0].id != id then [qs[0]] + RemoveQuadrant(qs[1..], id) else RemoveQuadrant(qs[1..], id)
  }

  /**
   * The filter keeps the order of the list: the result for a concatenation is
   * the results for its parts in turn, and a single quadrant is kept exactly
   * when its id differs. These two facts determine the result for every list.
   */
  lemma {:induction false} RemoveQuadrantAppend(a: seq<Quadrant>, b: seq<Quadrant>, id: string)
    ensures RemoveQuadrant(a + b, id) == RemoveQuadrant(a, id) + RemoveQuadrant(b, id)
    decreases |a|
  {
    if a == [] {
      assert a + b == b;
    } else {
      assert (a + b)[1..] == a[1..] + b;
      RemoveQuadrantAppend(a[1..], b, id);
    }
  }

  lemma {:induction false} RemoveQuadrantSingle(q: Quadrant, id: string)
    ensures RemoveQuadrant([q], id) == if q.id == id then [] else [q]
  {
    assert [q][1..] == [];
  }

  /** Removing an id that no quadrant has changes nothing; removing a present id shortens the list. */
  lemma {:induction false} RemoveQuadrantKeepsOthers(qs: seq<Quadrant>, id: string)
    ensures (forall i :: 0 <= i < |qs| ==> qs[i].id != id) ==> RemoveQuadrant(qs, id) == qs
    ensures forall i :: 0 <= i < |qs| && qs[i].id == id ==> |RemoveQuadrant(qs, id)| < |qs|
  {
    if forall i :: 0 <= i < |qs| ==> qs[i].id != id {
      RemoveAbsentQuadrant(qs, id);
    }
    forall i | 0 <= i < |qs| && qs[i].id == id ensures |RemoveQuadrant(qs, id)| < |qs| {
      RemovePresentQuadrant(qs, id, i);
    }
  }

  /** No quadrant has the id: the list is kept as it is. */
  lemma {:induction false} RemoveAbsentQuadrant(qs: seq<Quadrant>, id: string)
    requires forall i :: 0 <= i < |qs| ==> qs[i].id != id
    ensures RemoveQuadrant(qs, id) == qs
  {
    if qs != [] {
      forall i | 0 <= i < |qs[1..]| ensures qs[1..][i].id != id {
        assert qs[1..][i] == qs[i + 1];
      }
      RemoveAbsentQuadrant(qs[1..], id);
      assert qs == [qs[0]] + qs[1..];
    }
  }

  /** The quadrant at `k` has the id: the list gets shorter. */
  lemma {:induction false} RemovePresentQuadrant(qs: seq<Quadrant>, id: string, k: nat)
    requires k < |qs| && qs[k].id == id
    ensures |RemoveQuadrant(qs, id)| < |qs|
  {
    if k > 0 {
      assert qs[1..][k - 1].id == id;
      RemovePresentQuadrant(qs[1..], id, k - 1);
    }
  }

  /** `resetLayout`: the four fixed, empty quadrants. */
  function ResetLayout(): seq<Quadrant> {
    [ Quadrant("topLeft", "Top Left", [], 0.0, 0.0, 48.0, 48.0, false),
      Quadrant("topRight", "Top Right", [], 52.0, 0.0, 48.0, 48.0, false),
      Quadrant("bottomLeft", "Bottom Left", [], 0.0, 52.0, 48.0, 48.0, false),
      Quadrant("bottomRight", "Bottom Right", [], 52.0, 52.0, 48.0, 48.0, false) ]
  }

  predicate OnCanvas(q: Quadrant) {
    0.0 <= q.x && q.x + q.width <= 100.0 && 0.0 <= q.y && q.y + q.height <= 100.0
  }

  predicate Apart(a: Quadrant, b: Quadrant) {
    a.x + a.width <= b.x || b.x + b.width <= a.x || a.y + a.height <= b.y || b.y + b.height <= a.y
  }

  /** The reset layout has four empty quadrants with distinct ids, on the canvas and pairwise apart. */
  lemma {:induction false} ResetLayoutSpec()
    ensures var qs := ResetLayout();
            |qs| == 4 && UniqueIds(qs) && TotalCards(qs) == 0
            && (forall i :: 0 <= i < 4 ==> OnCanvas(qs[i]))
            && (forall i, j :: 0 <= i < j < 4 ==> Apart(qs[i], qs[j]))
  {
  }

  /** The quadrant's move handler: `x` and `y` clamped so the quadrant stays on the canvas. */
  function MoveQuadrant(qs: seq<Quadrant>, q: Quadrant, dx: real, dy: real): seq<Quadrant> {
    UpdateQuadrant(qs, q.id, NoChange.(x := Some(Clamp(q.x + dx, 0.0, 100.0 - q.width)),
                                       y := Some(Clamp(q.y + dy, 0.0, 100.0 - q.height))))
  }

  /** The quadrant's resize handler: at least 10 % each way and not past the canvas edge. */
  function ResizeQuadrant(qs: seq<Quadrant>, q: Quadrant, dw: real, dh: real): seq<Quadrant> {
    UpdateQuadrant(qs, q.id, NoChange.(width := Some(Clamp(q.width + dw, 10.0, 100.0 - q.x)),
                                       height := Some(Clamp(q.height + dh, 10.0, 100.0 - q.y))))
  }

  /** A moved quadrant that fits the canvas stays on it; nothing but its position changes. */
  lemma {:induction false} MoveQuadrantSpec(qs: seq<Quadrant>, k: nat, dx: real, dy: real)
    requires k < |qs| && 0.0 <= qs[k].width <= 100.0 && 0.0 <= qs[k].height <= 100.0
    ensures var r := MoveQuadrant(qs, qs[k], dx, dy);
            OnCanvas(r[k]) && r[k].(x := qs[k].x, y := qs[k].y) == qs[k]
            && forall i :: 0 <= i < |qs| && qs[i].id != qs[k].id ==> r[i] == qs[i]
  {
  }

  /** A resized quadrant starting at most 90 % in is 10 % or more each way and ends by the canvas edge. */
  lemma {:induction false} ResizeQuadrantSpec(qs: seq<Quadrant>, k: nat, dw: real, dh: real)
    requires k < |qs| && 0.0 <= qs[k].x <= 90.0 && 0.0 <= qs[k].y <= 90.0
    ensures var r := ResizeQuadrant(qs, qs[k], dw, dh);
            10.0 <= r[k].width && r[k].x + r[k].width <= 100.0
            && 10.0 <= r[k].height && r[k].y + r[k].height <= 100.0
            && r[k].(width := qs[k].width, height := qs[k].height) == qs[k]
            && forall i :: 0 <= i < |qs| && qs[i].id != qs[k].id ==> r[i] == qs[i]
  {
  }

  /** Collapsing flips the flag of the quadrant and leaves everything else as it was. */
  lemma {:induction false} CollapseToggles(qs: seq<Quadrant>, k: nat)
    requires k < |qs|
    ensures var r := UpdateQuadrant(qs, qs[k].id, NoChange.(collapsed := Some(!qs[k].collapsed)));
            r[k] == qs[k].(collapsed := !qs[k].collapsed)
            && forall i :: 0 <= i < |qs| && qs[i].id != qs[k].id ==> r[i] == qs[i]
  {
  }
}
